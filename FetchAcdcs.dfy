/** The parts of fetchACDCs.py that decide what is asked for and what is kept:
    the address and selection of getACDC, the defaults of main, and main's loop
    collecting the truthy TotalEstimatedJobs values into the sample document it
    writes. The request manager's reply is the parameter `fetch`, from address
    to parsed document; the written file is the returned path and document. */
module FetchAcdcs {
  import opened PyJson
  import opened Services
  import AcdcPrinter

  const DefaultOutput := "acdcsEstimJobs.json"

  /** The field main asks the request manager for. */
  const Api := "TotalEstimatedJobs"

  const ResubmissionQuery := "/reqmgr2/data/request?request_type=Resubmission"
  const MaskParam := "&mask="

  /** `args.output if args.output else 'acdcsEstimJobs.json'`: the report is
      always written somewhere. */
  function OutputFile(output: Option<string>): (path: string)
    ensures path != ""
    ensures TruthyArg(output) ==> path == output.value
    ensures !TruthyArg(output) ==> path == DefaultOutput
  {
    if TruthyArg(output) then output.value else DefaultOutput
  }

  // ---------------------------------------------------------------- getACDC

  /** The resubmission query with its mask; `'&mask=' + None` is a TypeError. */
  function AcdcUrl(baseUrl: string, api: Option<string>): (r: Result<string>)
    ensures r.Err? <==> api.None?
    ensures r.Ok? ==> IsPrefix(baseUrl + ResubmissionQuery + MaskParam, r.value)
                      && r.value[|baseUrl + ResubmissionQuery + MaskParam|..] == api.value
  {
    match api
    case None => Err(TypeError)
    case Some(a) => Ok(baseUrl + ResubmissionQuery + MaskParam + a)
  }

  /** On one service the query names the field asked for. */
  lemma AcdcUrlIdentifiesApi(baseUrl: string, a: string, b: string)
    requires AcdcUrl(baseUrl, Some(a)) == AcdcUrl(baseUrl, Some(b))
    ensures a == b
  {
    var n := |baseUrl + ResubmissionQuery + MaskParam|;
    assert a == AcdcUrl(baseUrl, Some(a)).value[n..] == AcdcUrl(baseUrl, Some(b)).value[n..] == b;
  }

  /** The subscriptions applied to the reply: `['result'][0]`, then `[reqName]`
      when a request name is given. */
  function Selection(reqName: Option<string>): seq<Index>
  {
    [Key("result"), Pos(0)] + (if TruthyArg(reqName) then [Key(reqName.value)] else [])
  }

  /** getACDC(baseUrl, reqName, api), the reply to each address being `fetch`. */
  function GetAcdc(baseUrl: string, reqName: Option<string>, api: Option<string>, fetch: string -> Json): (r: Result<Json>)
    ensures api.None? ==> r == Err(TypeError)
    ensures r.Ok? ==> api.Some? && Dig(fetch(AcdcUrl(baseUrl, api).value), [Key("result"), Pos(0)]).Ok?
  {
    match AcdcUrl(baseUrl, api)
    case Err(e) => Err(e)
    case Ok(urn) =>
      DigConcat(fetch(urn), [Key("result"), Pos(0)], Selection(reqName)[2..]);
      assert Selection(reqName) == [Key("result"), Pos(0)] + Selection(reqName)[2..];
      Dig(fetch(urn), Selection(reqName))
  }

  /** With a request name the answer is that request's entry of what the same
      call answers without one; without a name it is `result[0]` itself. */
  lemma GetAcdcSelects(baseUrl: string, reqName: Option<string>, api: Option<string>, fetch: string -> Json)
    ensures api.Some? && !TruthyArg(reqName) ==>
              GetAcdc(baseUrl, reqName, api, fetch)
              == Dig(fetch(AcdcUrl(baseUrl, api).value), [Key("result"), Pos(0)])
    ensures TruthyArg(reqName) ==>
              GetAcdc(baseUrl, reqName, api, fetch)
              == (match GetAcdc(baseUrl, None, api, fetch)
                  case Ok(all) => Subscript(all, Key(reqName.value))
                  case Err(e) => Err(e))
  {
    if api.Some? {
      var reply := fetch(AcdcUrl(baseUrl, api).value);
      if TruthyArg(reqName) {
        var name := reqName.value;
        DigConcat(reply, [Key("result"), Pos(0)], [Key(name)]);
        assert Selection(None) == [Key("result"), Pos(0)];
        assert [Key(name)][1..] == [];
      } else {
        assert Selection(reqName) == [Key("result"), Pos(0)];
      }
    }
  }

  // ---------------------------------------------------------------- main's loop

  /** `value['TotalEstimatedJobs']` */
  function EstimatedJobsOf(value: Json): Result<Json>
  {
    Subscript(value, Key(Api))
  }

  /** The values the loop has appended so far, followed by what the rest of
      the loop appends, unless the rest raises. */
  function After(done: seq<Json>, rest: Result<seq<Json>>): Result<seq<Json>>
  {
    match rest
    case Ok(xs) => Ok(done + xs)
    case Err(e) => Err(e)
  }

  /** Appending in two steps is appending once. */
  lemma AfterAfter(a: seq<Json>, b: seq<Json>, rest: Result<seq<Json>>)
    ensures After(a, After(b, rest)) == After(a + b, rest)
    ensures After([], rest) == rest
  {
    match rest
    case Ok(xs) =>
      assert a + (b + xs) == (a + b) + xs;
      assert [] + xs == xs;
    case Err(_) =>
  }

  /** The loop over the items of the ACDC dict: every truthy TotalEstimatedJobs
      value, in iteration order; the first item without one raises. */
  function Collected(items: seq<Field>): (r: Result<seq<Json>>)
    ensures r.Ok? <==> forall k | 0 <= k < |items| :: EstimatedJobsOf(items[k].value).Ok?
    ensures r.Ok? ==> forall i | 0 <= i < |r.value| :: Truthy(r.value[i])
    ensures r.Ok? ==> |r.value| <= |items|
  {
    if items == [] then Ok([])
    else
      assert forall k | 1 <= k < |items| :: items[k] == items[1..][k - 1];
      match EstimatedJobsOf(items[0].value)
      case Err(e) => Err(e)
      case Ok(v) => After(if Truthy(v) then [v] else [], Collected(items[1..]))
  }

  /** `for wf, value in acdcs.items()`: anything but a dict has no items(). */
  function EstimatedJobs(acdcs: Json): (r: Result<seq<Json>>)
    ensures !acdcs.Obj? ==> r == Err(AttributeError)
    ensures r.Ok? <==> acdcs.Obj? && forall k | 0 <= k < |acdcs.fields| :: EstimatedJobsOf(acdcs.fields[k].value).Ok?
    ensures r.Ok? ==> forall i | 0 <= i < |r.value| :: Truthy(r.value[i])
  {
    match acdcs
    case Obj(items) => Collected(items)
    case _ => Err(AttributeError)
  }

  /** The loop of main that fills TotalEstimatedJobsAll. */
  method CollectEstimatedJobs(acdcs: Json) returns (r: Result<seq<Json>>)
    ensures r == EstimatedJobs(acdcs)
  {
    if !acdcs.Obj? {
      return Err(AttributeError);
    }
    var items := acdcs.fields;
    var totalEstimatedJobsAll: seq<Json> := [];
    var i := 0;
    AfterAfter([], [], Collected(items));
    assert items[0..] == items;
    while i < |items|
      invariant 0 <= i <= |items|
      invariant Collected(items) == After(totalEstimatedJobsAll, Collected(items[i..]))
    {
      assert items[i..][0] == items[i] && items[i..][1..] == items[i + 1..];
      var value := items[i].value;
      var estimated := EstimatedJobsOf(value);
      if estimated.Err? {
        assert Collected(items[i..]) == Err(estimated.error);
        return Err(estimated.error);
      }
      var picked := if Truthy(estimated.value) then [estimated.value] else [];
      AfterAfter(totalEstimatedJobsAll, picked, Collected(items[i + 1..]));
      if Truthy(estimated.value) {
        totalEstimatedJobsAll := totalEstimatedJobsAll + [estimated.value];
      }
      i := i + 1;
    }
    assert items[i..] == [];
    assert totalEstimatedJobsAll + [] == totalEstimatedJobsAll;
    r := Ok(totalEstimatedJobsAll);
  }

  /** Collecting over two runs of items is collecting over the first and then
      the second: the values keep the iteration order. */
  lemma {:induction false} CollectedAppend(a: seq<Field>, b: seq<Field>)
    ensures Collected(a + b) == (match Collected(a) case Ok(xs) => After(xs, Collected(b)) case Err(e) => Err(e))
    decreases |a|
  {
    if a == [] {
      assert a + b == b;
      AfterAfter([], [], Collected(b));
    } else {
      assert (a + b)[0] == a[0] && (a + b)[1..] == a[1..] + b;
      CollectedAppend(a[1..], b);
      match EstimatedJobsOf(a[0].value)
      case Err(_) =>
      case Ok(v) =>
        var picked := if Truthy(v) then [v] else [];
        match Collected(a[1..])
        case Err(_) =>
        case Ok(xs) => AfterAfter(picked, xs, Collected(b));
    }
  }

  /** Reference definition: the truthy values of a list, in order. */
  function TruthyOnly(vals: seq<Json>): seq<Json>
  {
    if vals == [] then []
    else if Truthy(vals[0]) then [vals[0]] + TruthyOnly(vals[1..])
    else TruthyOnly(vals[1..])
  }

  /** When every item holds a TotalEstimatedJobs value, the loop collects
      exactly the truthy ones among them, in iteration order. */
  lemma {:induction false} CollectedIsTruthyOnly(items: seq<Field>, vals: seq<Json>)
    requires |vals| == |items|
    requires forall k | 0 <= k < |items| :: EstimatedJobsOf(items[k].value) == Ok(vals[k])
    ensures Collected(items) == Ok(TruthyOnly(vals))
  {
    if items != [] {
      assert forall k | 0 <= k < |items| - 1 :: items[1..][k] == items[k + 1] && vals[1..][k] == vals[k + 1];
      CollectedIsTruthyOnly(items[1..], vals[1..]);
      var picked := if Truthy(vals[0]) then [vals[0]] else [];
      assert Collected(items) == After(picked, Collected(items[1..]));
      assert TruthyOnly(vals) == picked + TruthyOnly(vals[1..]);
    }
  }

  /** TruthyOnly keeps exactly the truthy values: the i-th kept value is
      `vals[idx[i]]`, the indices increase, and a position is kept exactly
      when its value is truthy. */
  lemma {:induction false} TruthyOnlyPicks(vals: seq<Json>) returns (idx: seq<nat>)
    ensures |idx| == |TruthyOnly(vals)|
    ensures forall i | 0 <= i < |idx| :: idx[i] < |vals| && vals[idx[i]] == TruthyOnly(vals)[i]
    ensures forall i, j | 0 <= i < j < |idx| :: idx[i] < idx[j]
    ensures forall k | 0 <= k < |vals| :: Truthy(vals[k]) <==> k in idx
  {
    if vals == [] {
      idx := [];
    } else {
      var rest := TruthyOnly(vals[1..]);
      var idx' := TruthyOnlyPicks(vals[1..]);
      var shifted := ShiftPicks(vals, rest, idx');
      if Truthy(vals[0]) {
        assert TruthyOnly(vals) == [vals[0]] + rest;
        idx := PickFirst(vals, rest, shifted);
      } else {
        assert TruthyOnly(vals) == rest;
        idx := shifted;
        SkipFirst(vals, rest, shifted);
      }
    }
  }

  /** The picks among the values after the first, as positions in all of them. */
  lemma ShiftPicks(vals: seq<Json>, rest: seq<Json>, idx': seq<nat>) returns (shifted: seq<nat>)
    requires vals != []
    requires |idx'| == |rest|
    requires forall i | 0 <= i < |idx'| :: idx'[i] < |vals[1..]| && vals[1..][idx'[i]] == rest[i]
    requires forall i, j | 0 <= i < j < |idx'| :: idx'[i] < idx'[j]
    requires forall k | 0 <= k < |vals[1..]| :: Truthy(vals[1..][k]) <==> k in idx'
    ensures |shifted| == |rest|
    ensures forall i | 0 <= i < |shifted| :: 0 < shifted[i] < |vals| && vals[shifted[i]] == rest[i]
    ensures forall i, j | 0 <= i < j < |shifted| :: shifted[i] < shifted[j]
    ensures forall k | 1 <= k < |vals| :: Truthy(vals[k]) <==> k in shifted
    ensures 0 !in shifted
  {
    shifted := seq(|idx'|, i requires 0 <= i < |idx'| => idx'[i] + 1);
    ShiftedValues(vals, rest, idx', shifted);
    ShiftedMembers(vals, idx', shifted);
  }

  lemma ShiftedValues(vals: seq<Json>, rest: seq<Json>, idx': seq<nat>, shifted: seq<nat>)
    requires vals != [] && |idx'| == |rest| == |shifted|
    requires forall i | 0 <= i < |idx'| :: shifted[i] == idx'[i] + 1
    requires forall i | 0 <= i < |idx'| :: idx'[i] < |vals[1..]| && vals[1..][idx'[i]] == rest[i]
    ensures forall i | 0 <= i < |shifted| :: 0 < shifted[i] < |vals| && vals[shifted[i]] == rest[i]
  {
    forall i | 0 <= i < |shifted|
      ensures 0 < shifted[i] < |vals| && vals[shifted[i]] == rest[i]
    {
      assert vals[shifted[i]] == vals[1..][idx'[i]];
    }
  }

  lemma ShiftedMembers(vals: seq<Json>, idx': seq<nat>, shifted: seq<nat>)
    requires vals != [] && |idx'| == |shifted|
    requires forall i | 0 <= i < |idx'| :: shifted[i] == idx'[i] + 1
    requires forall k | 0 <= k < |vals[1..]| :: Truthy(vals[1..][k]) <==> k in idx'
    ensures forall k | 1 <= k < |vals| :: Truthy(vals[k]) <==> k in shifted
    ensures 0 !in shifted
  {
    forall k | 1 <= k < |vals|
      ensures Truthy(vals[k]) <==> k in shifted
    {
      assert vals[k] == vals[1..][k - 1];
      if k - 1 in idx' {
        var i :| 0 <= i < |idx'| && idx'[i] == k - 1;
        assert shifted[i] == k;
      }
      if k in shifted {
        var i :| 0 <= i < |shifted| && shifted[i] == k;
        assert idx'[i] == k - 1;
      }
    }
  }

  /** Leaving out a first value that is not truthy. */
  lemma SkipFirst(vals: seq<Json>, rest: seq<Json>, shifted: seq<nat>)
    requires vals != [] && !Truthy(vals[0])
    requires |shifted| == |rest|
    requires forall i | 0 <= i < |shifted| :: 0 < shifted[i] < |vals| && vals[shifted[i]] == rest[i]
    requires forall k | 1 <= k < |vals| :: Truthy(vals[k]) <==> k in shifted
    requires 0 !in shifted
    ensures forall i | 0 <= i < |shifted| :: shifted[i] < |vals| && vals[shifted[i]] == rest[i]
    ensures forall k | 0 <= k < |vals| :: Truthy(vals[k]) <==> k in shifted
  {
  }

  /** Keeping the first value in front of the picks among the later ones. */
  lemma PickFirst(vals: seq<Json>, rest: seq<Json>, shifted: seq<nat>) returns (idx: seq<nat>)
    requires vals != [] && Truthy(vals[0])
    requires |shifted| == |rest|
    requires forall i | 0 <= i < |shifted| :: 0 < shifted[i] < |vals| && vals[shifted[i]] == rest[i]
    requires forall i, j | 0 <= i < j < |shifted| :: shifted[i] < shifted[j]
    requires forall k | 1 <= k < |vals| :: Truthy(vals[k]) <==> k in shifted
    ensures idx == [0] + shifted
    ensures |idx| == |[vals[0]] + rest|
    ensures forall i | 0 <= i < |idx| :: idx[i] < |vals| && vals[idx[i]] == ([vals[0]] + rest)[i]
    ensures forall i, j | 0 <= i < j < |idx| :: idx[i] < idx[j]
    ensures forall k | 0 <= k < |vals| :: Truthy(vals[k]) <==> k in idx
  {
    idx := [0] + shifted;
    forall i | 0 < i < |idx|
      ensures idx[i] == shifted[i - 1] && ([vals[0]] + rest)[i] == rest[i - 1]
    {
    }
    forall k | 1 <= k < |vals|
      ensures k in idx <==> k in shifted
    {
    }
  }

  /** The document main writes: one entry "0" holding `n`, the sample, `m` and
      `sigma`; `eta` is left out. */
  function Sample(totalEstimatedJobsAll: seq<Json>): (doc: Json)
    ensures doc.Obj? && |doc.fields| == 1 && doc.fields[0].key == "0"
    ensures Dig(doc, [Key("0"), Key("sample")]) == Ok(Arr(totalEstimatedJobsAll))
    ensures Dig(doc, [Key("0"), Key("n")]) == Ok(Int(0))
    ensures Dig(doc, [Key("0"), Key("m")]) == Ok(Int(0))
    ensures Dig(doc, [Key("0"), Key("sigma")]) == Ok(Int(0))
  {
    var fs := [Field("n", Int(0)),
               Field("sample", Arr(totalEstimatedJobsAll)),
               Field("m", Int(0)),
               Field("sigma", Int(0))];
    SampleEntries(fs, totalEstimatedJobsAll);
    DigUnderZero(fs, "sample", Arr(totalEstimatedJobsAll));
    DigUnderZero(fs, "n", Int(0));
    DigUnderZero(fs, "m", Int(0));
    DigUnderZero(fs, "sigma", Int(0));
    Obj([Field("0", Obj(fs))])
  }

  lemma SampleEntries(fs: seq<Field>, totalEstimatedJobsAll: seq<Json>)
    requires fs == [Field("n", Int(0)), Field("sample", Arr(totalEstimatedJobsAll)),
                    Field("m", Int(0)), Field("sigma", Int(0))]
    ensures Lookup(fs, "n") == Some(Int(0))
    ensures Lookup(fs, "sample") == Some(Arr(totalEstimatedJobsAll))
    ensures Lookup(fs, "m") == Some(Int(0))
    ensures Lookup(fs, "sigma") == Some(Int(0))
  {
    var rest2, rest3 := fs[1..][1..], fs[1..][1..][1..];
    assert rest2 == [Field("m", Int(0)), Field("sigma", Int(0))];
    assert rest3 == [Field("sigma", Int(0))];
    assert "n"[0] != "m"[0];
    assert Lookup(rest2, "m") == Some(Int(0));
    assert Lookup(rest2, "sigma") == Lookup(rest3, "sigma") == Some(Int(0));
  }

  /** `{"0": {…}}["0"][key]` is the inner dict's value for the key. */
  lemma DigUnderZero(fs: seq<Field>, key: string, v: Json)
    requires Lookup(fs, key) == Some(v)
    ensures Dig(Obj([Field("0", Obj(fs))]), [Key("0"), Key(key)]) == Ok(v)
  {
    var doc := Obj([Field("0", Obj(fs))]);
    assert Subscript(doc, Key("0")) == Ok(Obj(fs));
    assert Subscript(Obj(fs), Key(key)) == Ok(v);
    assert [Key("0"), Key(key)][1..] == [Key(key)];
    assert [Key(key)][1..] == [];
    assert Dig(Obj(fs), [Key(key)]) == Dig(v, []);
  }

  // ---------------------------------------------------------------- main

  /** The options of main that change what it does; `--plot` is parsed but unused. */
  datatype Args = Args(output: Option<string>, cms: Option<string>, reqmgr: Option<string>, verbose: bool)

  /** main writes the sample document to a file, or an exception ends it. */
  datatype MainOutcome = Written(path: string, document: Json) | Raised(error: PyError)

  /** Where main looks for ACDCs: "https://" + the host given, the test instance otherwise. */
  function ReqMgrUrl(args: Args): (url: string)
    ensures !TruthyArg(args.reqmgr) ==> url == Testbed
    ensures TruthyArg(args.reqmgr) ==> IsPrefix(Scheme, url) && url[|Scheme|..] == args.reqmgr.value
  {
    ServiceUrl(args.reqmgr, Testbed)
  }

  /** What main leaves behind for the ACDCs it is given. */
  function Outcome(args: Args, acdcs: Result<Json>): (o: MainOutcome)
    ensures o.Written? <==> acdcs.Ok? && EstimatedJobs(acdcs.value).Ok?
    ensures o.Written? ==> o.path == OutputFile(args.output)
    ensures o.Written? ==> Dig(o.document, [Key("0"), Key("sample")]) == Ok(Arr(EstimatedJobs(acdcs.value).value))
    ensures acdcs.Err? ==> o == Raised(acdcs.error)
    ensures acdcs.Ok? && EstimatedJobs(acdcs.value).Err? ==> o == Raised(EstimatedJobs(acdcs.value).error)
  {
    match acdcs
    case Err(e) => Raised(e)
    case Ok(a) =>
      match EstimatedJobs(a)
      case Err(e) => Raised(e)
      case Ok(all) => Written(OutputFile(args.output), Sample(all))
  }

  /** main: fetch every ACDC's TotalEstimatedJobs, print them when verbose, and
      write the truthy ones as a sample. `printed` is what twPrint prints. */
  method RunMain(args: Args, fetch: string -> Json, wrap: AcdcPrinter.Wrapper)
    returns (printed: string, outcome: MainOutcome)
    ensures outcome == Outcome(args, GetAcdc(ReqMgrUrl(args), None, Some(Api), fetch))
    ensures var acdcs := GetAcdc(ReqMgrUrl(args), None, Some(Api), fetch);
            printed == (if args.verbose && acdcs.Ok? then AcdcPrinter.Enclosed(wrap, acdcs.value, "") + "\n" else "")
  {
    printed := "";
    var outputFile := OutputFile(args.output);
    var cmswebUrl := ServiceUrl(args.cms, Testbed);
    var reqmgrUrl := ServiceUrl(args.reqmgr, Testbed);
    var acdcs := GetAcdc(reqmgrUrl, None, Some(Api), fetch);
    if acdcs.Err? {
      return printed, Raised(acdcs.error);
    }
    if args.verbose {
      printed := AcdcPrinter.Enclosed(wrap, acdcs.value, "") + "\n";
    }
    var all := CollectEstimatedJobs(acdcs.value);
    if all.Err? {
      return printed, Raised(all.error);
    }
    outcome := Written(outputFile, Sample(all.value));
  }

  /** When main writes its file, the sample holds exactly the truthy
      TotalEstimatedJobs values of the ACDCs, in their order. */
  lemma WrittenSampleIsCollected(args: Args, acdcs: Json)
    requires Outcome(args, Ok(acdcs)).Written?
    ensures acdcs.Obj?
    ensures Outcome(args, Ok(acdcs)).path == OutputFile(args.output)
    ensures Dig(Outcome(args, Ok(acdcs)).document, [Key("0"), Key("sample")]) == Ok(Arr(Collected(acdcs.fields).value))
  {
  }
}

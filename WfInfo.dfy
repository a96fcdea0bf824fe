/** couchdbWfInfo.py: the request-manager summary of a workflow
    (`handleReqMgr`), the workload-summary address (`handleCoucdb`), the list
    of request names taken from the command line or a file, and the report
    `main` prints for them. HTTP is the parameter `fetch`, from an address to
    the document its reply parses to; the text `main` prints is returned as a
    value. */
module WfInfo {
  import opened PyJson
  import opened Services
  import TwPrinter

  const RequestEndpoint := "/reqmgr2/data/request/"
  const SummaryEndpoint := "/couchdb/workloadsummary/"

  /** The address handleReqMgr fetches. */
  function RequestUrl(reqmgrUrl: string, reqName: string): (urn: string)
    ensures IsPrefix(reqmgrUrl + RequestEndpoint, urn)
    ensures urn[|reqmgrUrl + RequestEndpoint|..] == reqName
  {
    reqmgrUrl + RequestEndpoint + reqName
  }

  /** The address handleCoucdb fetches. */
  function SummaryUrl(reqmgrUrl: string, reqName: string): (urn: string)
    ensures IsPrefix(reqmgrUrl + SummaryEndpoint, urn)
    ensures urn[|reqmgrUrl + SummaryEndpoint|..] == reqName
  {
    reqmgrUrl + SummaryEndpoint + reqName
  }

  /** The two services are never asked for the same address, and each address
      names one request. */
  lemma UrlsIdentifyRequest(reqmgrUrl: string, a: string, b: string)
    ensures RequestUrl(reqmgrUrl, a) != SummaryUrl(reqmgrUrl, b)
    ensures RequestUrl(reqmgrUrl, a) == RequestUrl(reqmgrUrl, b) ==> a == b
    ensures SummaryUrl(reqmgrUrl, a) == SummaryUrl(reqmgrUrl, b) ==> a == b
  {
    var n := |reqmgrUrl|;
    assert RequestUrl(reqmgrUrl, a)[n + 1] == 'r';
    assert SummaryUrl(reqmgrUrl, b)[n + 1] == 'c';
  }

  // ---------------------------------------------------------------- handleReqMgr

  /** The statuses in which a workflow is skipped. */
  const SkippedStatuses := ["assignment-approved", "assigned", "staging", "staged"]

  /** Python's `value in SkippedStatuses`: only a string can equal one of them. */
  predicate IsSkippedStatus(status: Json)
  {
    status.Str? && status.s in SkippedStatuses
  }

  /** What handleReqMgr returns: `(None, None)` for a skipped workflow, otherwise
      the total input lumis and the output datasets; `inputDataset` is the
      value its report line prints. */
  datatype ReqMgrOutcome =
    | Skipped
    | Summary(inputDataset: Option<Json>, totalInputLumis: Json, outputDatasets: Json)

  /** The if/elif chain that finds the input dataset: the record's own
      InputDataset, else Task1's, else Step1's, else None. The `in` tests and
      subscriptions raise as Python's do on values of the wrong kind. */
  function InputDataset(rec: Json): Result<Option<Json>>
  {
    match Contains(rec, "InputDataset")
    case Err(e) => Err(e)
    case Ok(top) =>
      if top then
        (match Subscript(rec, Key("InputDataset")) case Ok(v) => Ok(Some(v)) case Err(e) => Err(e))
      else
        match NestedInputDataset(rec, "Task1")
        case Err(e) => Err(e)
        case Ok(Some(v)) => Ok(Some(v))
        case Ok(None) => NestedInputDataset(rec, "Step1")
  }

  /** `'T' in rec and 'InputDataset' in rec['T']`, then `rec['T']['InputDataset']`. */
  function NestedInputDataset(rec: Json, task: string): Result<Option<Json>>
  {
    match Contains(rec, task)
    case Err(e) => Err(e)
    case Ok(present) =>
      if !present then Ok(None)
      else
        match Subscript(rec, Key(task))
        case Err(e) => Err(e)
        case Ok(t) =>
          match Contains(t, "InputDataset")
          case Err(e) => Err(e)
          case Ok(has) =>
            if !has then Ok(None)
            else
              match Subscript(t, Key("InputDataset"))
              case Err(e) => Err(e)
              case Ok(v) => Ok(Some(v))
  }

  /** The first value present, in order. */
  function FirstPresent(xs: seq<Option<Json>>): (r: Option<Json>)
    ensures r.None? <==> forall k | 0 <= k < |xs| :: xs[k].None?
  {
    if xs == [] then None
    else if xs[0].Some? then xs[0]
    else
      assert forall k | 1 <= k < |xs| :: xs[k] == xs[1..][k - 1];
      FirstPresent(xs[1..])
  }

  /** The value FirstPresent picks stands before every other present one. */
  lemma {:induction false} FirstPresentIsFirst(xs: seq<Option<Json>>) returns (k: nat)
    requires FirstPresent(xs).Some?
    ensures k < |xs| && xs[k] == FirstPresent(xs)
    ensures forall j | 0 <= j < k :: xs[j].None?
  {
    if xs[0].Some? {
      k := 0;
    } else {
      var k' := FirstPresentIsFirst(xs[1..]);
      k := k' + 1;
      assert xs[k] == xs[1..][k'];
      assert forall j | 1 <= j < k :: xs[j] == xs[1..][j - 1];
    }
  }

  /** What a key holds in a value that may be absent and may not be a dict. */
  function Member(j: Option<Json>, key: string): Option<Json>
  {
    if j.Some? && j.value.Obj? then Lookup(j.value.fields, key) else None
  }

  /** A record whose `in` tests cannot raise: a dict whose Task1 and Step1, when
      present, are dicts too. */
  predicate WellShaped(rec: Json)
  {
    rec.Obj?
    && (Lookup(rec.fields, "Task1").Some? ==> Lookup(rec.fields, "Task1").value.Obj?)
    && (Lookup(rec.fields, "Step1").Some? ==> Lookup(rec.fields, "Step1").value.Obj?)
  }

  /** The three places an input dataset may be recorded, in the order they are tried. */
  function InputDatasetCandidates(rec: Json): seq<Option<Json>>
  {
    [Member(Some(rec), "InputDataset"),
     Member(Member(Some(rec), "Task1"), "InputDataset"),
     Member(Member(Some(rec), "Step1"), "InputDataset")]
  }

  /** On a well-shaped record the chain picks the first of the record's own,
      Task1's and Step1's InputDataset that is present. */
  lemma InputDatasetPrecedence(rec: Json)
    requires WellShaped(rec)
    ensures InputDataset(rec) == Ok(FirstPresent(InputDatasetCandidates(rec)))
  {
    var xs := InputDatasetCandidates(rec);
    NestedIsMember(rec, "Task1");
    NestedIsMember(rec, "Step1");
    assert xs[1..][1..] == [xs[2]];
    assert [xs[2]][1..] == [];
    if xs[0].None? {
      assert FirstPresent(xs) == FirstPresent(xs[1..]);
      if xs[1].None? {
        assert FirstPresent(xs[1..]) == FirstPresent([xs[2]]);
      }
    }
  }

  /** On a dict whose `task`, when present, is a dict, the nested test never raises. */
  lemma NestedIsMember(rec: Json, task: string)
    requires rec.Obj?
    requires Lookup(rec.fields, task).Some? ==> Lookup(rec.fields, task).value.Obj?
    ensures NestedInputDataset(rec, task) == Ok(Member(Member(Some(rec), task), "InputDataset"))
  {
  }

  /** handleReqMgr on the document the request manager answered with. */
  function HandleReqMgr(reqName: string, reply: Json): (r: Result<ReqMgrOutcome>)
    ensures r.Ok? ==> Dig(reply, [Key("result"), Pos(0), Key(reqName)]).Ok?
    ensures r.Ok? ==>
              var rec := Dig(reply, [Key("result"), Pos(0), Key(reqName)]).value;
              rec.Obj? && Lookup(rec.fields, "RequestStatus").Some?
              && (r.value.Skipped? <==> IsSkippedStatus(Lookup(rec.fields, "RequestStatus").value))
    ensures r.Ok? && r.value.Summary? ==>
              var rec := Dig(reply, [Key("result"), Pos(0), Key(reqName)]).value;
              rec.Obj?
              && Lookup(rec.fields, "TotalInputLumis") == Some(r.value.totalInputLumis)
              && Lookup(rec.fields, "OutputDatasets") == Some(r.value.outputDatasets)
  {
    match Dig(reply, [Key("result"), Pos(0), Key(reqName)])
    case Err(e) => Err(e)
    case Ok(rec) =>
      match Subscript(rec, Key("RequestStatus"))
      case Err(e) => Err(e)
      case Ok(status) =>
        if IsSkippedStatus(status) then Ok(Skipped)
        else
          match InputDataset(rec)
          case Err(e) => Err(e)
          case Ok(input) =>
            match Subscript(rec, Key("TotalInputLumis"))
            case Err(e) => Err(e)
            case Ok(lumis) =>
              match Subscript(rec, Key("OutputDatasets"))
              case Err(e) => Err(e)
              case Ok(outputs) => Ok(Summary(input, lumis, outputs))
  }

  /** A workflow in one of the skipped statuses gives `(None, None)`, whatever
      else its record holds. */
  lemma SkippedStatusGivesNothing(reqName: string, reply: Json, rec: Json)
    requires Dig(reply, [Key("result"), Pos(0), Key(reqName)]) == Ok(rec)
    requires rec.Obj? && Lookup(rec.fields, "RequestStatus").Some?
    requires IsSkippedStatus(Lookup(rec.fields, "RequestStatus").value)
    ensures HandleReqMgr(reqName, reply) == Ok(Skipped)
  {
  }

  /** Any other workflow gives its TotalInputLumis and OutputDatasets, with the
      input dataset found by the precedence chain. */
  lemma ActiveWorkflowSummary(reqName: string, reply: Json, rec: Json)
    requires Dig(reply, [Key("result"), Pos(0), Key(reqName)]) == Ok(rec)
    requires WellShaped(rec)
    requires Lookup(rec.fields, "RequestStatus").Some?
    requires !IsSkippedStatus(Lookup(rec.fields, "RequestStatus").value)
    requires Lookup(rec.fields, "TotalInputLumis").Some? && Lookup(rec.fields, "OutputDatasets").Some?
    ensures HandleReqMgr(reqName, reply) == Ok(Summary(
              FirstPresent(InputDatasetCandidates(rec)),
              Lookup(rec.fields, "TotalInputLumis").value,
              Lookup(rec.fields, "OutputDatasets").value))
  {
    InputDatasetPrecedence(rec);
  }

  // ---------------------------------------------------------------- request names

  /** Length of the first line of a non-empty text, its newline included. */
  function LineLength(s: string): (n: nat)
    requires s != ""
    ensures 0 < n <= |s|
    ensures forall k | 0 <= k < n - 1 :: s[k] != '\n'
    ensures n < |s| ==> s[n - 1] == '\n'
  {
    if s[0] == '\n' || |s| == 1 then 1
    else
      var n := 1 + LineLength(s[1..]);
      assert forall k | 1 <= k < |s| :: s[k] == s[1..][k - 1];
      n
  }

  /** `f.readlines()`: the lines of a text, each with its newline, the last one
      without when the text does not end with a newline. */
  function ReadLines(s: string): (lines: seq<string>)
    ensures forall k | 0 <= k < |lines| :: lines[k] != ""
    ensures forall k, i | 0 <= k < |lines| && 0 <= i < |lines[k]| - 1 :: lines[k][i] != '\n'
    ensures forall k | 0 <= k < |lines| - 1 :: lines[k][|lines[k]| - 1] == '\n'
    decreases |s|
  {
    if s == "" then []
    else
      var n := LineLength(s);
      [s[..n]] + ReadLines(s[n..])
  }

  function Concat(lines: seq<string>): string
  {
    if lines == [] then "" else lines[0] + Concat(lines[1..])
  }

  /** Splitting into lines loses nothing. */
  lemma {:induction false} ReadLinesConcat(s: string)
    ensures Concat(ReadLines(s)) == s
    decreases |s|
  {
    if s != "" {
      var n := LineLength(s);
      ReadLinesConcat(s[n..]);
      assert ReadLines(s)[1..] == ReadLines(s[n..]);
      assert s == s[..n] + s[n..];
    }
  }

  /** `line.rstrip('\n')` */
  function RStripNewlines(line: string): (r: string)
    ensures IsPrefix(r, line)
    ensures r == "" || r[|r| - 1] != '\n'
    ensures forall k | |r| <= k < |line| :: line[k] == '\n'
  {
    if line != "" && line[|line| - 1] == '\n' then
      var r := RStripNewlines(line[..|line| - 1]);
      assert forall k | 0 <= k < |line| - 1 :: line[..|line| - 1][k] == line[k];
      r
    else line
  }

  function StripAll(lines: seq<string>): (names: seq<string>)
    ensures |names| == |lines|
    ensures forall k | 0 <= k < |lines| :: names[k] == RStripNewlines(lines[k])
  {
    if lines == [] then [] else [RStripNewlines(lines[0])] + StripAll(lines[1..])
  }

  /** `[req.rstrip('\n') for req in f.readlines()]` */
  function RequestNames(content: string): (names: seq<string>)
    ensures names == [] <==> content == ""
  {
    StripAll(ReadLines(content))
  }

  /** No request name read from a file holds a newline. */
  lemma {:induction false} RequestNamesPlain(content: string)
    ensures forall k | 0 <= k < |RequestNames(content)| :: '\n' !in RequestNames(content)[k]
    decreases |content|
  {
    if content != "" {
      var n := LineLength(content);
      var line := content[..n];
      var name := RStripNewlines(line);
      RequestNamesPlain(content[n..]);
      assert ReadLines(content) == [line] + ReadLines(content[n..]);
      assert RequestNames(content) == [name] + RequestNames(content[n..]);
      forall k | 0 <= k < |name|
        ensures name[k] != '\n'
      {
        if k == |name| - 1 {
        } else {
          assert name[k] == line[k];
        }
      }
    }
  }

  /** A file of names, one per line. */
  function NameLines(names: seq<string>): string
  {
    if names == [] then "" else names[0] + "\n" + NameLines(names[1..])
  }

  /** Writing names one per line and reading them back gives the same names,
      as long as no name holds a newline. */
  lemma {:induction false} RequestNamesRoundTrip(names: seq<string>)
    requires forall k | 0 <= k < |names| :: '\n' !in names[k]
    ensures RequestNames(NameLines(names)) == names
  {
    if names != [] {
      var a := names[0];
      var rest := NameLines(names[1..]);
      var s := NameLines(names);
      assert names[0] in names;
      assert s == (a + "\n") + rest;
      FirstLineOf(a, rest);
      assert s[..|a| + 1] == a + "\n" && s[|a| + 1..] == rest;
      assert (a + "\n")[..|a|] == a;
      if a != "" {
        assert a[|a| - 1] in a;
      }
      RequestNamesRoundTrip(names[1..]);
      assert RequestNames(s) == [a] + RequestNames(rest);
    }
  }

  lemma {:induction false} FirstLineOf(a: string, rest: string)
    requires '\n' !in a
    ensures LineLength((a + "\n") + rest) == |a| + 1
  {
    var s := (a + "\n") + rest;
    if a != "" {
      assert a[0] in a;
      assert s[1..] == (a[1..] + "\n") + rest;
      FirstLineOf(a[1..], rest);
    }
  }

  // ---------------------------------------------------------------- main

  /** The command line: `-w`, `-i`, `-c` and `-r`, None when not given. */
  datatype Args = Args(workflow: Option<string>, inputFile: Option<string>, cms: Option<string>, reqmgr: Option<string>)

  /** The requests main goes through, or why it stops before the loop. */
  datatype Requests =
    | Names(names: seq<string>)
    | UsageError
    | NoSuchFile(path: string)

  /** `-w` and `-i` exclude each other; a truthy `-w` names the one request, a
      truthy `-i` a file of names; with neither main exits with a usage error.
      `files` holds the text of the files that can be read. */
  function ListRequests(args: Args, files: map<string, string>): (r: Requests)
    ensures r.UsageError? <==>
              (args.workflow.Some? && args.inputFile.Some?) || (!TruthyArg(args.workflow) && !TruthyArg(args.inputFile))
    ensures r.Names? && TruthyArg(args.workflow) ==> r.names == [args.workflow.value]
    ensures r.Names? && !TruthyArg(args.workflow) ==>
              args.inputFile.Some? && args.inputFile.value in files
              && r.names == RequestNames(files[args.inputFile.value])
    ensures r.NoSuchFile? ==> args.inputFile.Some? && r.path == args.inputFile.value && r.path !in files
  {
    if args.workflow.Some? && args.inputFile.Some? then UsageError
    else if TruthyArg(args.workflow) then Names([args.workflow.value])
    else if TruthyArg(args.inputFile) then
      (if args.inputFile.value in files then Names(RequestNames(files[args.inputFile.value]))
       else NoSuchFile(args.inputFile.value))
    else UsageError
  }

  /** The request manager main talks to: "https://" + the host given, the
      production instance otherwise. */
  function ReqMgrUrl(args: Args): (url: string)
    ensures !TruthyArg(args.reqmgr) ==> url == Production
    ensures TruthyArg(args.reqmgr) ==> IsPrefix(Scheme, url) && url[|Scheme|..] == args.reqmgr.value
  {
    ServiceUrl(args.reqmgr, Production)
  }

  /** The separator line printed around each summary. */
  const Rule := "-----------------------------"

  /** What main prints for one request: its workload summary between two rules. */
  function Block(reqName: string, reqmgrUrl: string, fetch: string -> Json, wrap: TwPrinter.Wrapper): string
  {
    Rule + "\n" + TwPrinter.Enclosed(wrap, fetch(SummaryUrl(reqmgrUrl, reqName)), "", false) + "\n" + Rule + "\n"
  }

  /** What the loop of main prints for a list of requests: one block per
      request, in the order of the list. */
  function ReportText(reqs: seq<string>, reqmgrUrl: string, fetch: string -> Json, wrap: TwPrinter.Wrapper): string
  {
    if reqs == [] then "" else Block(reqs[0], reqmgrUrl, fetch, wrap) + ReportText(reqs[1..], reqmgrUrl, fetch, wrap)
  }

  /** The report of two lists of requests is the report of the first followed by
      that of the second. */
  lemma {:induction false} ReportAppend(a: seq<string>, b: seq<string>, reqmgrUrl: string, fetch: string -> Json, wrap: TwPrinter.Wrapper)
    ensures ReportText(a + b, reqmgrUrl, fetch, wrap)
            == ReportText(a, reqmgrUrl, fetch, wrap) + ReportText(b, reqmgrUrl, fetch, wrap)
    decreases |a|
  {
    if a == [] {
      assert a + b == b;
    } else {
      assert (a + b)[0] == a[0] && (a + b)[1..] == a[1..] + b;
      ReportAppend(a[1..], b, reqmgrUrl, fetch, wrap);
    }
  }

  /** One request's block: the dump of its summary between two rules. */
  lemma ReportOne(reqName: string, reqmgrUrl: string, fetch: string -> Json, wrap: TwPrinter.Wrapper)
    ensures ReportText([reqName], reqmgrUrl, fetch, wrap)
            == Rule + "\n" + TwPrinter.Enclosed(wrap, fetch(SummaryUrl(reqmgrUrl, reqName)), "", false) + "\n" + Rule + "\n"
  {
    assert [reqName][1..] == [];
  }

  /** The report is empty exactly when there are no requests; otherwise it opens
      and closes with a rule line. */
  lemma ReportFramed(reqs: seq<string>, reqmgrUrl: string, fetch: string -> Json, wrap: TwPrinter.Wrapper)
    ensures ReportText(reqs, reqmgrUrl, fetch, wrap) == "" <==> reqs == []
    ensures reqs != [] ==> IsPrefix(Rule + "\n", ReportText(reqs, reqmgrUrl, fetch, wrap))
    ensures reqs != [] ==>
              var r := ReportText(reqs, reqmgrUrl, fetch, wrap);
              |Rule| + 1 <= |r| && r[|r| - |Rule| - 1..] == Rule + "\n"
  {
    if reqs != [] {
      ReportOpens(reqs, reqmgrUrl, fetch, wrap);
      ReportCloses(reqs, reqmgrUrl, fetch, wrap);
    }
  }

  lemma ReportOpens(reqs: seq<string>, reqmgrUrl: string, fetch: string -> Json, wrap: TwPrinter.Wrapper)
    requires reqs != []
    ensures IsPrefix(Rule + "\n", ReportText(reqs, reqmgrUrl, fetch, wrap))
  {
    var first := ReportText([reqs[0]], reqmgrUrl, fetch, wrap);
    var rest := ReportText(reqs[1..], reqmgrUrl, fetch, wrap);
    ReportOne(reqs[0], reqmgrUrl, fetch, wrap);
    BlockFramed(first, TwPrinter.Enclosed(wrap, fetch(SummaryUrl(reqmgrUrl, reqs[0])), "", false));
    ReportAppend([reqs[0]], reqs[1..], reqmgrUrl, fetch, wrap);
    assert [reqs[0]] + reqs[1..] == reqs;
    OpensWith(Rule + "\n", first, rest);
  }

  lemma ReportCloses(reqs: seq<string>, reqmgrUrl: string, fetch: string -> Json, wrap: TwPrinter.Wrapper)
    requires reqs != []
    ensures var r := ReportText(reqs, reqmgrUrl, fetch, wrap);
            |Rule| + 1 <= |r| && r[|r| - |Rule| - 1..] == Rule + "\n"
  {
    var n := |reqs|;
    var init := ReportText(reqs[..n - 1], reqmgrUrl, fetch, wrap);
    var last := ReportText([reqs[n - 1]], reqmgrUrl, fetch, wrap);
    ReportOne(reqs[n - 1], reqmgrUrl, fetch, wrap);
    BlockFramed(last, TwPrinter.Enclosed(wrap, fetch(SummaryUrl(reqmgrUrl, reqs[n - 1])), "", false));
    ReportAppend(reqs[..n - 1], [reqs[n - 1]], reqmgrUrl, fetch, wrap);
    assert reqs[..n - 1] + [reqs[n - 1]] == reqs;
    ClosesWith(init, last, Rule + "\n");
  }

  /** A block opens and closes with a rule line. */
  lemma BlockFramed(b: string, dump: string)
    requires b == Rule + "\n" + dump + "\n" + Rule + "\n"
    ensures IsPrefix(Rule + "\n", b)
    ensures |Rule| + 1 <= |b| && b[|b| - |Rule| - 1..] == Rule + "\n"
  {
    assert b == (Rule + "\n") + (dump + "\n") + (Rule + "\n");
  }

  lemma OpensWith(p: string, a: string, b: string)
    requires IsPrefix(p, a)
    ensures IsPrefix(p, a + b)
  {
    assert (a + b)[..|p|] == a[..|p|];
  }

  lemma ClosesWith(a: string, b: string, q: string)
    requires |q| <= |b| && b[|b| - |q|..] == q
    ensures |q| <= |a + b| && (a + b)[|a + b| - |q|..] == q
  {
    assert (a + b)[|a + b| - |q|..] == b[|b| - |q|..];
  }

  /** The loop of main: fetch each request's workload summary and print it. */
  method Report(listRequests: seq<string>, reqmgrUrl: string, fetch: string -> Json, wrap: TwPrinter.Wrapper)
    returns (out: string)
    ensures out == ReportText(listRequests, reqmgrUrl, fetch, wrap)
  {
    out := "";
    var i := 0;
    while i < |listRequests|
      invariant 0 <= i <= |listRequests|
      invariant out == ReportText(listRequests[..i], reqmgrUrl, fetch, wrap)
    {
      var reqName := listRequests[i];
      var couchdbOut := fetch(SummaryUrl(reqmgrUrl, reqName));
      var dump := TwPrinter.Enclosed(wrap, couchdbOut, "", false);
      ReportOne(reqName, reqmgrUrl, fetch, wrap);
      ReportAppend(listRequests[..i], [reqName], reqmgrUrl, fetch, wrap);
      assert listRequests[..i] + [reqName] == listRequests[..i + 1];
      out := out + (Rule + "\n" + dump + "\n" + Rule + "\n");
      i := i + 1;
    }
    assert listRequests[..i] == listRequests;
  }

  /** What main does: the printed report, or the reason it stops first. */
  datatype MainOutcome = Printed(text: string) | Stopped(reason: Requests)

  method RunMain(args: Args, files: map<string, string>, fetch: string -> Json, wrap: TwPrinter.Wrapper)
    returns (outcome: MainOutcome)
    ensures ListRequests(args, files).Names? ==>
              outcome == Printed(ReportText(ListRequests(args, files).names, ReqMgrUrl(args), fetch, wrap))
    ensures !ListRequests(args, files).Names? ==> outcome == Stopped(ListRequests(args, files))
  {
    var listRequests := ListRequests(args, files);
    if !listRequests.Names? {
      return Stopped(listRequests);
    }
    var reqmgrUrl := ServiceUrl(args.reqmgr, Production);
    var text := Report(listRequests.names, reqmgrUrl, fetch, wrap);
    return Printed(text);
  }
}

/** The indented dump of a parsed JSON document written by `twClosure()` in
    twrapper.py: the inner function `twEnclosed(obj, ind, reCall)`. The same
    function is copied, unchanged, into couchdbWfInfo.py. TextWrapper.wrap is
    left uninterpreted: it is the parameter `wrap`. */
module TwPrinter {
  import opened PyJson
  import opened KeyOrder

  /** The indentation added per nesting level. */
  const Step := "    "

  /** The `twr.wrap` of the closure: any function from a string to lines. */
  type Wrapper = string -> seq<string>

  /** twEnclosed(obj, ind, reCall). A dict or a list starts a new line when it is
      nested (reCall) and not when it is the document itself; its entries are
      indented by one Step more than `ind`; a scalar is `str(obj)` and a newline. */
  function Enclosed(wrap: Wrapper, obj: Json, ind: string, reCall: bool): (r: string)
    ensures r == "" || r[|r| - 1] == '\n'
    ensures r == "" <==> !reCall && IsEmptyContainer(obj)
    ensures reCall && !IsScalar(obj) ==> |r| > 0 && r[0] == '\n'
    ensures IsEmptyContainer(obj) ==> r == (if reCall then "\n" else "")
    ensures IsScalar(obj) ==> r == PyStr(obj) + "\n"
    decreases Size(obj), 1, 0
  {
    match obj
    case Obj(fs) => (if reCall then "\n" else "") + Entries(wrap, SortByKey(fs), ind + Step)
    case Arr(xs) => (if reCall then "\n" else "") + Items(wrap, xs, ind + Step)
    case _ => PyStr(obj) + "\n"
  }

  /** The loop over the sorted items of a dict: `"%s%s: %s" % (ind, key, value)` each. */
  function Entries(wrap: Wrapper, es: seq<Field>, ind: string): (r: string)
    ensures r == "" <==> es == []
    ensures r == "" || r[|r| - 1] == '\n'
    decreases SizeFields(es), 2, |es|
  {
    if es == [] then ""
    else ind + Joined(wrap(es[0].key)) + ": " + Enclosed(wrap, es[0].value, ind, true) + Entries(wrap, es[1..], ind)
  }

  /** The loop over the elements of a list: `"%s%s" % (ind, value)` each. */
  function Items(wrap: Wrapper, xs: seq<Json>, ind: string): (r: string)
    ensures r == "" <==> xs == []
    ensures r == "" || r[|r| - 1] == '\n'
    decreases SizeItems(xs), 2, |xs|
  {
    if xs == [] then ""
    else ind + Enclosed(wrap, xs[0], ind, true) + Items(wrap, xs[1..], ind)
  }

  // ---------------------------------------------------------------- key order

  /** A dict prints the same whatever the order its items were inserted in. */
  lemma RenderIgnoresInsertionOrder(wrap: Wrapper, a: seq<Field>, b: seq<Field>, ind: string, reCall: bool)
    requires DistinctKeys(a)
    requires multiset(a) == multiset(b)
    ensures Enclosed(wrap, Obj(a), ind, reCall) == Enclosed(wrap, Obj(b), ind, reCall)
  {
    SortIgnoresInsertionOrder(a, b);
  }

  /** A non-empty dict opens with its least key: the new line when nested, one
      Step more indentation, the joined wrapped key, ": " and the value's own dump. */
  lemma FirstEntry(wrap: Wrapper, fs: seq<Field>, ind: string, reCall: bool)
    requires fs != []
    ensures var f := SortByKey(fs)[0];
            IsPrefix((if reCall then "\n" else "")
                       + (ind + Step + Joined(wrap(f.key)) + ": " + Enclosed(wrap, f.value, ind + Step, true)),
                     Enclosed(wrap, Obj(fs), ind, reCall))
    ensures forall k | 0 <= k < |fs| :: KeyAtMost(SortByKey(fs)[0].key, fs[k].key)
  {
    SortedFirstIsLeast(fs);
    var es := SortByKey(fs);
    var lead := if reCall then "\n" else "";
    var first := ind + Step + Joined(wrap(es[0].key)) + ": " + Enclosed(wrap, es[0].value, ind + Step, true);
    var rest := Entries(wrap, es[1..], ind + Step);
    EntriesCons(wrap, es, ind + Step);
    PrefixOfAssoc(lead, first, rest);
  }

  lemma EntriesCons(wrap: Wrapper, es: seq<Field>, p: string)
    requires es != []
    ensures Entries(wrap, es, p)
            == p + Joined(wrap(es[0].key)) + ": " + Enclosed(wrap, es[0].value, p, true) + Entries(wrap, es[1..], p)
  {
  }

  lemma PrefixOfAssoc(a: string, b: string, c: string)
    ensures IsPrefix(a + b, a + (b + c))
  {
    assert (a + (b + c))[..|a + b|] == a + b;
  }

  // ---------------------------------------------------------------- newline count

  /** No newline in any scalar nor in any wrapped key. */
  predicate PlainText(wrap: Wrapper, j: Json)
  {
    match j
    case Obj(fs) => forall k | 0 <= k < |fs| :: PlainField(wrap, fs[k])
    case Arr(xs) => forall k | 0 <= k < |xs| :: PlainText(wrap, xs[k])
    case _ => '\n' !in PyStr(j)
  }

  predicate PlainField(wrap: Wrapper, f: Field)
  {
    '\n' !in Joined(wrap(f.key)) && PlainText(wrap, f.value)
  }

  lemma PlainSorted(wrap: Wrapper, fs: seq<Field>)
    requires forall k | 0 <= k < |fs| :: PlainField(wrap, fs[k])
    ensures forall k | 0 <= k < |SortByKey(fs)| :: PlainField(wrap, SortByKey(fs)[k])
  {
    forall k | 0 <= k < |SortByKey(fs)|
      ensures PlainField(wrap, SortByKey(fs)[k])
    {
      SortByKeyMembers(fs, k);
    }
  }

  /** Every scalar and every nested dict or list ends exactly one line: the
      output holds one newline per scalar leaf and per nested container (the
      document itself, when it is a container, adds none). */
  lemma {:induction false} NewlineCount(wrap: Wrapper, obj: Json, ind: string, reCall: bool)
    requires PlainText(wrap, obj) && '\n' !in ind
    ensures Count('\n', Enclosed(wrap, obj, ind, reCall))
            == Leaves(obj) + Containers(obj) - (if reCall || IsScalar(obj) then 0 else 1)
    decreases Size(obj), 1, 0
  {
    var lead := if reCall then "\n" else "";
    match obj
    case Obj(fs) =>
      PlainSorted(wrap, fs);
      EntriesNewlineCount(wrap, SortByKey(fs), ind + Step);
      CountConcat('\n', lead, Entries(wrap, SortByKey(fs), ind + Step));
    case Arr(xs) =>
      ItemsNewlineCount(wrap, xs, ind + Step);
      CountConcat('\n', lead, Items(wrap, xs, ind + Step));
    case _ =>
      CountConcat('\n', PyStr(obj), "\n");
      CountAbsent('\n', PyStr(obj));
  }

  lemma {:induction false} EntriesNewlineCount(wrap: Wrapper, es: seq<Field>, ind: string)
    requires forall k | 0 <= k < |es| :: PlainField(wrap, es[k])
    requires '\n' !in ind
    ensures Count('\n', Entries(wrap, es, ind)) == LeavesFields(es) + ContainersFields(es)
    decreases SizeFields(es), 2, |es|
  {
    if es != [] {
      var head := ind + Joined(wrap(es[0].key)) + ": ";
      var sub := Enclosed(wrap, es[0].value, ind, true);
      var rest := Entries(wrap, es[1..], ind);
      NewlineCount(wrap, es[0].value, ind, true);
      EntriesNewlineCount(wrap, es[1..], ind);
      CountConcat('\n', head + sub, rest);
      CountConcat('\n', head, sub);
      CountAbsent('\n', head);
    }
  }

  lemma {:induction false} ItemsNewlineCount(wrap: Wrapper, xs: seq<Json>, ind: string)
    requires forall k | 0 <= k < |xs| :: PlainText(wrap, xs[k])
    requires '\n' !in ind
    ensures Count('\n', Items(wrap, xs, ind)) == LeavesItems(xs) + ContainersItems(xs)
    decreases SizeItems(xs), 2, |xs|
  {
    if xs != [] {
      var sub := Enclosed(wrap, xs[0], ind, true);
      NewlineCount(wrap, xs[0], ind, true);
      ItemsNewlineCount(wrap, xs[1..], ind);
      CountConcat('\n', ind + sub, Items(wrap, xs[1..], ind));
      CountConcat('\n', ind, sub);
      CountAbsent('\n', ind);
    }
  }

  // ---------------------------------------------------------------- indentation

  /** Every line after a newline (other than a final one) starts with p. */
  predicate LinesStartWith(s: string, p: string)
  {
    forall k | 0 <= k < |s| - 1 :: LineBreakBefore(s, k, p)
  }

  /** If s[k] ends a line, the next line starts with p. */
  predicate LineBreakBefore(s: string, k: nat, p: string)
    requires k < |s|
  {
    s[k] == '\n' ==> IsPrefix(p, s[k + 1..])
  }

  lemma LinesConcat(a: string, b: string, p: string)
    requires LinesStartWith(a, p) && LinesStartWith(b, p)
    requires a != "" && a[|a| - 1] == '\n' && b != "" ==> IsPrefix(p, b)
    ensures LinesStartWith(a + b, p)
  {
    var s := a + b;
    forall k | 0 <= k < |s| - 1
      ensures LineBreakBefore(s, k, p)
    {
      if k < |a| - 1 {
        assert LineBreakBefore(a, k, p);
        assert s[k] == a[k] && s[k + 1..] == a[k + 1..] + b;
      } else if k == |a| - 1 {
        assert s[k] == a[k] && s[k + 1..] == b;
      } else {
        assert LineBreakBefore(b, k - |a|, p);
        assert s[k] == b[k - |a|] && s[k + 1..] == b[k - |a| + 1..];
      }
    }
  }

  lemma LinesWithoutNewline(s: string, p: string)
    requires '\n' !in s
    ensures LinesStartWith(s, p)
  {
    forall k | 0 <= k < |s| - 1
      ensures LineBreakBefore(s, k, p)
    {
      assert s[k] in s;
    }
  }

  lemma LinesWeaken(s: string, p: string, q: string)
    requires LinesStartWith(s, p + q)
    ensures LinesStartWith(s, p)
  {
    forall k | 0 <= k < |s| - 1
      ensures LineBreakBefore(s, k, p)
    {
      assert LineBreakBefore(s, k, p + q);
      assert (p + q)[..|p|] == p;
    }
  }

  /** Each nesting level indents by one more Step: every line after the first
      starts with `ind` and four spaces, and so does the first line of a
      non-empty dict or list printed at the top level. */
  lemma {:induction false} IndentPerLevel(wrap: Wrapper, obj: Json, ind: string, reCall: bool)
    requires PlainText(wrap, obj) && '\n' !in ind
    ensures LinesStartWith(Enclosed(wrap, obj, ind, reCall), ind + Step)
    ensures !reCall && !IsScalar(obj) && !IsEmptyContainer(obj)
            ==> IsPrefix(ind + Step, Enclosed(wrap, obj, ind, reCall))
    decreases Size(obj), 1, 0
  {
    var lead := if reCall then "\n" else "";
    var p := ind + Step;
    match obj
    case Obj(fs) =>
      PlainSorted(wrap, fs);
      EntriesIndented(wrap, SortByKey(fs), p);
      LeadThenBody(lead, Entries(wrap, SortByKey(fs), p), p);
    case Arr(xs) =>
      ItemsIndented(wrap, xs, p);
      LeadThenBody(lead, Items(wrap, xs, p), p);
    case _ =>
      LinesWithoutNewline(PyStr(obj), p);
      LinesConcat(PyStr(obj), "\n", p);
  }

  /** The optional leading newline of a dict or list keeps its lines indented. */
  lemma LeadThenBody(lead: string, body: string, p: string)
    requires lead == "" || lead == "\n"
    requires LinesStartWith(body, p)
    requires body != "" ==> IsPrefix(p, body)
    ensures LinesStartWith(lead + body, p)
    ensures lead == "" && body != "" ==> IsPrefix(p, lead + body)
  {
    if lead == "" {
      assert lead + body == body;
    } else {
      LinesConcat(lead, body, p);
    }
  }

  lemma {:induction false} EntriesIndented(wrap: Wrapper, es: seq<Field>, ind: string)
    requires forall k | 0 <= k < |es| :: PlainField(wrap, es[k])
    requires '\n' !in ind
    ensures LinesStartWith(Entries(wrap, es, ind), ind)
    ensures es != [] ==> IsPrefix(ind, Entries(wrap, es, ind))
    decreases SizeFields(es), 2, |es|
  {
    if es != [] {
      var key := Joined(wrap(es[0].key));
      var sub := Enclosed(wrap, es[0].value, ind, true);
      IndentPerLevel(wrap, es[0].value, ind, true);
      LinesWeaken(sub, ind, Step);
      EntriesIndented(wrap, es[1..], ind);
      KeyHead(ind, key);
      GlueEntry(ind + key + ": ", sub, Entries(wrap, es[1..], ind), ind);
    }
  }

  lemma {:induction false} ItemsIndented(wrap: Wrapper, xs: seq<Json>, ind: string)
    requires forall k | 0 <= k < |xs| :: PlainText(wrap, xs[k])
    requires '\n' !in ind
    ensures LinesStartWith(Items(wrap, xs, ind), ind)
    ensures xs != [] ==> IsPrefix(ind, Items(wrap, xs, ind))
    decreases SizeItems(xs), 2, |xs|
  {
    if xs != [] {
      var sub := Enclosed(wrap, xs[0], ind, true);
      IndentPerLevel(wrap, xs[0], ind, true);
      LinesWeaken(sub, ind, Step);
      ItemsIndented(wrap, xs[1..], ind);
      assert ind[..|ind|] == ind;
      GlueEntry(ind, sub, Items(wrap, xs[1..], ind), ind);
    }
  }

  /** The head of a dict entry starts with its indentation and has no newline. */
  lemma KeyHead(ind: string, key: string)
    requires '\n' !in ind && '\n' !in key
    ensures '\n' !in ind + key + ": "
    ensures IsPrefix(ind, ind + key + ": ")
  {
    var h := ind + key + ": ";
    assert h[..|ind|] == ind;
    forall k | 0 <= k < |h|
      ensures h[k] != '\n'
    {
      if k < |ind| {
        assert h[k] == ind[k];
      } else if k < |ind| + |key| {
        assert h[k] == key[k - |ind|];
      }
    }
  }

  /** One turn of a loop: a head without newline that starts with `p`, a
      nested dump and the rest of the loop, each of whose lines starts with `p`. */
  lemma GlueEntry(head: string, sub: string, rest: string, p: string)
    requires '\n' !in head && IsPrefix(p, head)
    requires LinesStartWith(sub, p) && LinesStartWith(rest, p)
    requires rest != "" ==> IsPrefix(p, rest)
    ensures LinesStartWith(head + sub + rest, p)
    ensures IsPrefix(p, head + sub + rest)
  {
    LinesConcat(sub, rest, p);
    LinesWithoutNewline(head, p);
    LinesConcat(head, sub + rest, p);
    assert head + sub + rest == head + (sub + rest);
    assert (head + (sub + rest))[..|p|] == head[..|p|];
  }
}

/** The indented dump written by `twClosure()` in fetchACDCs.py. Unlike the
    twrapper.py printer it always opens a dict or a list with a newline, ends
    every entry with one, wraps scalars as well as keys, and finishes each
    call with `re.sub(r'(\n+)', "\n", output)`: every run of newlines becomes
    one newline. TextWrapper.wrap is the parameter `wrap`. */
module AcdcPrinter {
  import opened PyJson
  import opened KeyOrder

  /** The indentation added per nesting level. fetchACDCs.py carries its own copy
      of `twClosure`, so this module keeps its own copy of the closure's
      parameters rather than sharing TwPrinter's. */
  const Step := "    "

  /** The `twr.wrap` of this closure: any function from a string to lines. */
  type Wrapper = string -> seq<string>

  // ---------------------------------------------------------------- the regular expression

  /** Two newlines in a row at position k. */
  predicate DoubledAt(s: string, k: nat)
    requires k + 1 < |s|
  {
    s[k] == '\n' && s[k + 1] == '\n'
  }

  /** No empty line inside the text: no two consecutive newlines. */
  predicate NoBlankLine(s: string)
  {
    forall k | 0 <= k < |s| - 1 :: !DoubledAt(s, k)
  }

  /** `re.sub(r'(\n+)', "\n", s)`: every maximal run of newlines becomes one. */
  function Collapse(s: string): string
  {
    if |s| < 2 then s
    else if s[0] == '\n' && s[1] == '\n' then Collapse(s[1..])
    else [s[0]] + Collapse(s[1..])
  }

  /** The substitution never lengthens the text and keeps its first and last character. */
  lemma {:induction false} CollapseEnds(s: string)
    ensures |Collapse(s)| <= |s|
    ensures s != [] ==> Collapse(s) != [] && Collapse(s)[0] == s[0] && Collapse(s)[|Collapse(s)| - 1] == s[|s| - 1]
  {
    if |s| >= 2 {
      CollapseEnds(s[1..]);
    }
  }

  /** The text with every newline removed. */
  function WithoutNewlines(s: string): (r: string)
    ensures '\n' !in r
  {
    if s == [] then []
    else (if s[0] == '\n' then [] else [s[0]]) + WithoutNewlines(s[1..])
  }

  lemma {:induction false} CollapseNoBlankLine(s: string)
    ensures NoBlankLine(Collapse(s))
  {
    if |s| >= 2 {
      CollapseNoBlankLine(s[1..]);
      if !(s[0] == '\n' && s[1] == '\n') {
        var t := Collapse(s[1..]);
        var r := [s[0]] + t;
        forall k | 0 <= k < |r| - 1
          ensures !DoubledAt(r, k)
        {
          if k > 0 {
            assert r[k] == t[k - 1] && r[k + 1] == t[k];
            assert !DoubledAt(t, k - 1);
          }
        }
      }
    }
  }

  /** A text without an empty line is left alone. */
  lemma {:induction false} CollapseKeeps(s: string)
    requires NoBlankLine(s)
    ensures Collapse(s) == s
  {
    if |s| >= 2 {
      assert !DoubledAt(s, 0);
      var t := s[1..];
      forall k | 0 <= k < |t| - 1
        ensures !DoubledAt(t, k)
      {
        assert !DoubledAt(s, k + 1);
      }
      CollapseKeeps(t);
      assert s == [s[0]] + t;
    }
  }

  /** The texts the substitution leaves unchanged are exactly those without an empty line. */
  lemma CollapseFixedPoint(s: string)
    ensures Collapse(s) == s <==> NoBlankLine(s)
  {
    CollapseNoBlankLine(s);
    if NoBlankLine(s) {
      CollapseKeeps(s);
    }
  }

  lemma CollapseIdempotent(s: string)
    ensures Collapse(Collapse(s)) == Collapse(s)
  {
    CollapseNoBlankLine(s);
    CollapseKeeps(Collapse(s));
  }

  /** Only newlines are removed: the other characters stay, in order. */
  lemma {:induction false} CollapseKeepsText(s: string)
    ensures WithoutNewlines(Collapse(s)) == WithoutNewlines(s)
  {
    if |s| >= 2 {
      CollapseKeepsText(s[1..]);
      if !(s[0] == '\n' && s[1] == '\n') {
        assert ([s[0]] + Collapse(s[1..]))[1..] == Collapse(s[1..]);
      }
    }
  }

  /** A newline-free head passes through the substitution untouched. */
  lemma {:induction false} CollapsePlainHead(p: string, x: string)
    requires '\n' !in p
    ensures Collapse(p + x) == p + Collapse(x)
  {
    if p == [] {
      assert p + x == x;
    } else {
      var q := p[1..];
      assert p[0] in p;
      assert '\n' !in q by {
        forall k | 0 <= k < |q|
          ensures q[k] != '\n'
        {
          assert q[k] == p[k + 1];
        }
      }
      CollapsePlainHead(q, x);
      assert p + x == [p[0]] + (q + x);
      if q + x == [] {
        assert p + x == p && x == [];
      } else {
        CollapseCons(p[0], q + x);
      }
      assert p == [p[0]] + q;
    }
  }

  /** A first character that does not start a run of newlines is kept. */
  lemma CollapseCons(c: char, t: string)
    requires t != [] && !(c == '\n' && t[0] == '\n')
    ensures Collapse([c] + t) == [c] + Collapse(t)
  {
    var s := [c] + t;
    assert s[0] == c && s[1] == t[0] && s[1..] == t;
  }

  /** Substituting in the tail first changes nothing. */
  lemma {:induction false} CollapseTail(a: string, b: string)
    ensures Collapse(a + b) == Collapse(a + Collapse(b))
  {
    if a == [] {
      assert a + b == b && a + Collapse(b) == Collapse(b);
      CollapseIdempotent(b);
    } else if |a| == 1 {
      if b != [] {
        var c := Collapse(b);
        CollapseEnds(b);
        assert (a + b)[1..] == b && (a + c)[1..] == c;
        CollapseIdempotent(b);
      } else {
        assert a + b == a && b == Collapse(b);
      }
    } else {
      CollapseTail(a[1..], b);
      assert (a + b)[1..] == a[1..] + b;
      assert (a + Collapse(b))[1..] == a[1..] + Collapse(b);
    }
  }

  /** Substituting in the head first changes nothing. */
  lemma {:induction false} CollapseHead(a: string, b: string)
    ensures Collapse(a + b) == Collapse(Collapse(a) + b)
  {
    if |a| >= 2 {
      var t := Collapse(a[1..]);
      CollapseEnds(a[1..]);
      CollapseHead(a[1..], b);
      assert a + b == [a[0]] + (a[1..] + b);
      if a[0] == '\n' && a[1] == '\n' {
        assert (a + b)[0] == a[0] && (a + b)[1] == a[1] && (a + b)[1..] == a[1..] + b;
      } else {
        CollapseCons(a[0], a[1..] + b);
        CollapseCons(a[0], t + b);
        assert Collapse(a) + b == [a[0]] + (t + b);
      }
    }
  }

  /** Substituting inside a middle piece first changes nothing. */
  lemma CollapseInner(a: string, b: string, c: string)
    ensures Collapse(a + Collapse(b) + c) == Collapse(a + b + c)
  {
    CollapseHead(a + Collapse(b), c);
    CollapseTail(a, b);
    CollapseHead(a + b, c);
  }

  // ---------------------------------------------------------------- the printer

  /** twEnclosed(obj, ind) of fetchACDCs.py. */
  function Enclosed(wrap: Wrapper, obj: Json, ind: string): (r: string)
    ensures !IsScalar(obj) ==> r != [] && r[0] == '\n'
    decreases Size(obj), 1, 0
  {
    match obj
    case Obj(fs) =>
      var raw := "\n" + Entries(wrap, SortByKey(fs), ind + Step);
      CollapseEnds(raw);
      Collapse(raw)
    case Arr(xs) =>
      var raw := "\n" + Items(wrap, xs, ind + Step);
      CollapseEnds(raw);
      Collapse(raw)
    case _ => Collapse(Joined(wrap(PyStr(obj))))
  }

  /** The loop over the sorted items: `"%s%s: %s\n" % (ind, key, value)` each. */
  function Entries(wrap: Wrapper, es: seq<Field>, ind: string): (r: string)
    ensures r == "" <==> es == []
    decreases SizeFields(es), 2, |es|
  {
    if es == [] then ""
    else ind + Joined(wrap(es[0].key)) + ": " + Enclosed(wrap, es[0].value, ind) + "\n" + Entries(wrap, es[1..], ind)
  }

  /** The loop over the elements of a list: `"%s%s\n" % (ind, value)` each. */
  function Items(wrap: Wrapper, xs: seq<Json>, ind: string): (r: string)
    ensures r == "" <==> xs == []
    decreases SizeItems(xs), 2, |xs|
  {
    if xs == [] then ""
    else ind + Enclosed(wrap, xs[0], ind) + "\n" + Items(wrap, xs[1..], ind)
  }

  /** The same text with no substitution on the way: the reference the printer is
      compared with. */
  function Raw(wrap: Wrapper, obj: Json, ind: string): string
    decreases Size(obj), 1, 0
  {
    match obj
    case Obj(fs) => "\n" + RawEntries(wrap, SortByKey(fs), ind + Step)
    case Arr(xs) => "\n" + RawItems(wrap, xs, ind + Step)
    case _ => Joined(wrap(PyStr(obj)))
  }

  function RawEntries(wrap: Wrapper, es: seq<Field>, ind: string): string
    decreases SizeFields(es), 2, |es|
  {
    if es == [] then ""
    else ind + Joined(wrap(es[0].key)) + ": " + Raw(wrap, es[0].value, ind) + "\n" + RawEntries(wrap, es[1..], ind)
  }

  function RawItems(wrap: Wrapper, xs: seq<Json>, ind: string): string
    decreases SizeItems(xs), 2, |xs|
  {
    if xs == [] then ""
    else ind + Raw(wrap, xs[0], ind) + "\n" + RawItems(wrap, xs[1..], ind)
  }

  /** Collapsing the newlines at every level of the recursion gives the same text
      as collapsing them once in the whole uncollapsed dump. */
  lemma {:induction false} CollapseOnce(wrap: Wrapper, obj: Json, ind: string)
    ensures Enclosed(wrap, obj, ind) == Collapse(Raw(wrap, obj, ind))
    decreases Size(obj), 1, 0
  {
    match obj
    case Obj(fs) =>
      var es := SortByKey(fs);
      EntriesCollapseOnce(wrap, es, ind + Step);
      CollapseTail("\n", Entries(wrap, es, ind + Step));
      CollapseTail("\n", RawEntries(wrap, es, ind + Step));
    case Arr(xs) =>
      ItemsCollapseOnce(wrap, xs, ind + Step);
      CollapseTail("\n", Items(wrap, xs, ind + Step));
      CollapseTail("\n", RawItems(wrap, xs, ind + Step));
    case _ =>
  }

  lemma {:induction false} EntriesCollapseOnce(wrap: Wrapper, es: seq<Field>, ind: string)
    ensures Collapse(Entries(wrap, es, ind)) == Collapse(RawEntries(wrap, es, ind))
    decreases SizeFields(es), 2, |es|
  {
    if es != [] {
      CollapseOnce(wrap, es[0].value, ind);
      EntriesCollapseOnce(wrap, es[1..], ind);
      LineCollapseOnce(ind + Joined(wrap(es[0].key)) + ": ", Raw(wrap, es[0].value, ind),
                       Entries(wrap, es[1..], ind), RawEntries(wrap, es[1..], ind));
    }
  }

  lemma {:induction false} ItemsCollapseOnce(wrap: Wrapper, xs: seq<Json>, ind: string)
    ensures Collapse(Items(wrap, xs, ind)) == Collapse(RawItems(wrap, xs, ind))
    decreases SizeItems(xs), 2, |xs|
  {
    if xs != [] {
      CollapseOnce(wrap, xs[0], ind);
      ItemsCollapseOnce(wrap, xs[1..], ind);
      LineCollapseOnce(ind, Raw(wrap, xs[0], ind), Items(wrap, xs[1..], ind), RawItems(wrap, xs[1..], ind));
    }
  }

  /** One entry line followed by the rest of the loop. */
  lemma LineCollapseOnce(head: string, raw: string, rest: string, rawRest: string)
    requires Collapse(rest) == Collapse(rawRest)
    ensures Collapse(head + Collapse(raw) + "\n" + rest) == Collapse(head + raw + "\n" + rawRest)
  {
    calc {
      Collapse(head + Collapse(raw) + "\n" + rest);
      { assert head + Collapse(raw) + "\n" + rest == head + Collapse(raw) + ("\n" + rest); }
      Collapse(head + Collapse(raw) + ("\n" + rest));
      { CollapseInner(head, raw, "\n" + rest); }
      Collapse(head + raw + ("\n" + rest));
      { assert head + raw + ("\n" + rest) == (head + raw + "\n") + rest; }
      Collapse((head + raw + "\n") + rest);
      { CollapseTail(head + raw + "\n", rest); CollapseTail(head + raw + "\n", rawRest); }
      Collapse((head + raw + "\n") + rawRest);
    }
  }

  /** The dump never holds an empty line, and running the substitution over it
      once more changes nothing. */
  lemma NoBlankLineInDump(wrap: Wrapper, obj: Json, ind: string)
    ensures NoBlankLine(Enclosed(wrap, obj, ind))
    ensures Collapse(Enclosed(wrap, obj, ind)) == Enclosed(wrap, obj, ind)
  {
    CollapseOnce(wrap, obj, ind);
    CollapseNoBlankLine(Raw(wrap, obj, ind));
    CollapseIdempotent(Raw(wrap, obj, ind));
  }

  /** A scalar is its wrapped text and nothing more: no newline is added. */
  lemma ScalarText(wrap: Wrapper, obj: Json, ind: string)
    requires IsScalar(obj)
    requires NoBlankLine(Joined(wrap(PyStr(obj))))
    ensures Enclosed(wrap, obj, ind) == Joined(wrap(PyStr(obj)))
  {
    CollapseKeeps(Joined(wrap(PyStr(obj))));
  }

  /** A dict prints the same whatever the order its items were inserted in. */
  lemma RenderIgnoresInsertionOrder(wrap: Wrapper, a: seq<Field>, b: seq<Field>, ind: string)
    requires DistinctKeys(a)
    requires multiset(a) == multiset(b)
    ensures Enclosed(wrap, Obj(a), ind) == Enclosed(wrap, Obj(b), ind)
  {
    SortIgnoresInsertionOrder(a, b);
  }

  /** A non-empty dict or list starts a new line holding its first entry,
      indented by `ind` and four more spaces; the first entry of a dict is the
      one with the least key. */
  lemma ContainerLayout(wrap: Wrapper, obj: Json, ind: string)
    requires !IsScalar(obj) && !IsEmptyContainer(obj)
    requires '\n' !in ind
    ensures IsPrefix("\n" + ind + Step, Enclosed(wrap, obj, ind))
    ensures obj.Obj? ==> forall k | 0 <= k < |obj.fields| ::
              KeyAtMost(SortByKey(obj.fields)[0].key, obj.fields[k].key)
  {
    match obj
    case Obj(fs) =>
      DictLayout(wrap, fs, ind);
      SortedFirstIsLeast(fs);
    case Arr(xs) => ListLayout(wrap, xs, ind);
  }

  lemma DictLayout(wrap: Wrapper, fs: seq<Field>, ind: string)
    requires fs != [] && '\n' !in ind
    ensures IsPrefix("\n" + ind + Step, Enclosed(wrap, Obj(fs), ind))
  {
    var p := ind + Step;
    PlainIndent(ind);
    var es := SortByKey(fs);
    var body := Entries(wrap, es, p);
    LeftmostPrefix(p, Joined(wrap(es[0].key)), ": ", Enclosed(wrap, es[0].value, p), "\n", Entries(wrap, es[1..], p));
    SplitAfterPrefix(p, body);
    OpenLine(p, body[|p|..]);
    assert "\n" + ind + Step == "\n" + p;
  }

  lemma ListLayout(wrap: Wrapper, xs: seq<Json>, ind: string)
    requires xs != [] && '\n' !in ind
    ensures IsPrefix("\n" + ind + Step, Enclosed(wrap, Arr(xs), ind))
  {
    var p := ind + Step;
    PlainIndent(ind);
    var body := Items(wrap, xs, p);
    LeftmostPrefix(p, Enclosed(wrap, xs[0], p), "\n", Items(wrap, xs[1..], p), "", "");
    SplitAfterPrefix(p, body);
    OpenLine(p, body[|p|..]);
    assert "\n" + ind + Step == "\n" + p;
  }

  /** A concatenation starts with its leftmost part. */
  lemma LeftmostPrefix(p: string, a: string, b: string, c: string, d: string, e: string)
    ensures IsPrefix(p, p + a + b + c + d + e)
    ensures IsPrefix(p, p + a + b + c)
    ensures p + a + b + c + "" + "" == p + a + b + c
  {
    assert (p + a + b + c + d + e)[..|p|] == p;
    assert (p + a + b + c)[..|p|] == p;
  }

  lemma SplitAfterPrefix(p: string, s: string)
    requires IsPrefix(p, s)
    ensures p + s[|p|..] == s
  {
    assert s == s[..|p|] + s[|p|..];
  }

  lemma PlainIndent(ind: string)
    requires '\n' !in ind
    ensures '\n' !in ind + Step
  {
    var p := ind + Step;
    forall k | 0 <= k < |p|
      ensures p[k] != '\n'
    {
      if k < |ind| {
        assert p[k] == ind[k];
      }
    }
  }

  /** The leading newline of a container followed by its indented first line. */
  lemma OpenLine(p: string, tail: string)
    requires '\n' !in p && p != []
    ensures IsPrefix("\n" + p, Collapse("\n" + (p + tail)))
  {
    CollapsePlainHead(p, tail);
    assert p[0] in p;
    assert ("\n" + (p + tail))[1..] == p + tail;
    assert Collapse("\n" + (p + tail)) == "\n" + (p + Collapse(tail));
    assert ("\n" + (p + Collapse(tail)))[..|"\n" + p|] == "\n" + p;
  }

  // ---------------------------------------------------------------- indentation

  /** No newline in any wrapped scalar nor in any wrapped key. */
  predicate PlainText(wrap: Wrapper, j: Json)
  {
    match j
    case Obj(fs) => forall k | 0 <= k < |fs| :: PlainField(wrap, fs[k])
    case Arr(xs) => forall k | 0 <= k < |xs| :: PlainText(wrap, xs[k])
    case _ => '\n' !in Joined(wrap(PyStr(j)))
  }

  /** Reads like TwPrinter.PlainField, but its values are checked with this
      module's PlainText, which wraps scalars. */
  predicate PlainField(wrap: Wrapper, f: Field)
  {
    '\n' !in Joined(wrap(f.key)) && PlainText(wrap, f.value)
  }

  lemma PlainSorted(wrap: Wrapper, fs: seq<Field>)
    requires forall k | 0 <= k < |fs| :: PlainField(wrap, fs[k])
    ensures forall k | 0 <= k < |SortByKey(fs)| :: PlainField(wrap, SortByKey(fs)[k])
  {
    forall k | 0 <= k < |SortByKey(fs)|
      ensures PlainField(wrap, SortByKey(fs)[k])
    {
      SortByKeyMembers(fs, k);
    }
  }

  /** Every line after a newline (other than a final one) starts with p. */
  predicate LinesStartWith(s: string, p: string)
  {
    forall k | 0 <= k < |s| - 1 :: LineBreakBefore(s, k, p)
  }

  predicate LineBreakBefore(s: string, k: nat, p: string)
    requires k < |s|
  {
    s[k] == '\n' ==> IsPrefix(p, s[k + 1..])
  }

  /** Every line after a newline that is not itself empty starts with p: what
      holds of the text before the substitution removes the empty lines. */
  predicate FilledLinesStartWith(s: string, p: string)
  {
    forall k | 0 <= k < |s| - 1 :: FilledLineBefore(s, k, p)
  }

  predicate FilledLineBefore(s: string, k: nat, p: string)
    requires k + 1 < |s|
  {
    s[k] == '\n' && s[k + 1] != '\n' ==> IsPrefix(p, s[k + 1..])
  }

  lemma PrefixExtends(p: string, x: string, y: string)
    requires IsPrefix(p, x)
    ensures IsPrefix(p, x + y)
  {
    assert (x + y)[..|p|] == x[..|p|];
  }

  lemma FilledConcat(a: string, b: string, p: string)
    requires FilledLinesStartWith(a, p) && FilledLinesStartWith(b, p)
    requires a != "" && a[|a| - 1] == '\n' && b != "" && b[0] != '\n' ==> IsPrefix(p, b)
    ensures FilledLinesStartWith(a + b, p)
  {
    var s := a + b;
    forall k | 0 <= k < |s| - 1
      ensures FilledLineBefore(s, k, p)
    {
      if k < |a| - 1 {
        assert FilledLineBefore(a, k, p);
        assert s[k] == a[k] && s[k + 1] == a[k + 1] && s[k + 1..] == a[k + 1..] + b;
        if IsPrefix(p, a[k + 1..]) {
          PrefixExtends(p, a[k + 1..], b);
        }
      } else if k == |a| - 1 {
        assert s[k] == a[k] && s[k + 1..] == b;
      } else {
        assert FilledLineBefore(b, k - |a|, p);
        assert s[k] == b[k - |a|] && s[k + 1] == b[k - |a| + 1] && s[k + 1..] == b[k - |a| + 1..];
      }
    }
  }

  lemma FilledWithoutNewline(s: string, p: string)
    requires '\n' !in s
    ensures FilledLinesStartWith(s, p)
  {
    forall k | 0 <= k < |s| - 1
      ensures FilledLineBefore(s, k, p)
    {
      assert s[k] in s;
    }
  }

  lemma FilledWeaken(s: string, p: string, q: string)
    requires FilledLinesStartWith(s, p + q)
    ensures FilledLinesStartWith(s, p)
  {
    forall k | 0 <= k < |s| - 1
      ensures FilledLineBefore(s, k, p)
    {
      assert FilledLineBefore(s, k, p + q);
      assert (p + q)[..|p|] == p;
    }
  }

  lemma FilledTail(s: string, p: string)
    requires s != [] && FilledLinesStartWith(s, p)
    ensures FilledLinesStartWith(s[1..], p)
  {
    var t := s[1..];
    forall k | 0 <= k < |t| - 1
      ensures FilledLineBefore(t, k, p)
    {
      assert FilledLineBefore(s, k + 1, p);
      assert t[k] == s[k + 1] && t[k + 1] == s[k + 2] && t[k + 1..] == s[k + 2..];
    }
  }

  /** The substitution keeps the indentation of the lines it does not remove. */
  lemma {:induction false} CollapseFilled(s: string, p: string)
    requires '\n' !in p && FilledLinesStartWith(s, p)
    ensures FilledLinesStartWith(Collapse(s), p)
  {
    if |s| >= 2 {
      FilledTail(s, p);
      CollapseFilled(s[1..], p);
      if !(s[0] == '\n' && s[1] == '\n') {
        var t := Collapse(s[1..]);
        CollapseEnds(s[1..]);
        if s[0] == '\n' {
          FirstLineCollapsed(s, p);
        }
        FilledShort([s[0]], p);
        FilledConcat([s[0]], t, p);
      }
    }
  }

  lemma FirstLineCollapsed(s: string, p: string)
    requires |s| >= 2 && s[0] == '\n' && s[1] != '\n'
    requires '\n' !in p && FilledLinesStartWith(s, p)
    ensures IsPrefix(p, Collapse(s[1..]))
  {
    assert FilledLineBefore(s, 0, p);
    var x := s[1..][|p|..];
    assert s[1..] == p + x;
    CollapsePlainHead(p, x);
    PrefixExtends(p, p, Collapse(x));
  }

  /** Without empty lines, every line after a newline starts with p. */
  lemma FilledWithoutBlank(s: string, p: string)
    requires FilledLinesStartWith(s, p) && NoBlankLine(s)
    ensures LinesStartWith(s, p)
  {
    forall k | 0 <= k < |s| - 1
      ensures LineBreakBefore(s, k, p)
    {
      assert FilledLineBefore(s, k, p) && !DoubledAt(s, k);
    }
  }

  /** Each nesting level indents by one more Step: under newline-free wrapped
      scalars and keys, every line after a newline starts with `ind` and four
      spaces. */
  lemma IndentPerLevel(wrap: Wrapper, obj: Json, ind: string)
    requires PlainText(wrap, obj) && '\n' !in ind
    ensures LinesStartWith(Enclosed(wrap, obj, ind), ind + Step)
  {
    IndentFilled(wrap, obj, ind);
    NoBlankLineInDump(wrap, obj, ind);
    FilledWithoutBlank(Enclosed(wrap, obj, ind), ind + Step);
  }

  lemma {:induction false} IndentFilled(wrap: Wrapper, obj: Json, ind: string)
    requires PlainText(wrap, obj) && '\n' !in ind
    ensures FilledLinesStartWith(Enclosed(wrap, obj, ind), ind + Step)
    decreases Size(obj), 1, 0
  {
    var p := ind + Step;
    PlainIndent(ind);
    match obj
    case Obj(fs) =>
      PlainSorted(wrap, fs);
      var body := Entries(wrap, SortByKey(fs), p);
      EntriesFilled(wrap, SortByKey(fs), p);
      FilledShort("\n", p);
      FilledConcat("\n", body, p);
      CollapseFilled("\n" + body, p);
    case Arr(xs) =>
      var body := Items(wrap, xs, p);
      ItemsFilled(wrap, xs, p);
      FilledShort("\n", p);
      FilledConcat("\n", body, p);
      CollapseFilled("\n" + body, p);
    case _ =>
      var x := Joined(wrap(PyStr(obj)));
      CollapsePlainHead(x, "");
      assert x + "" == x;
      FilledWithoutNewline(x, p);
  }

  lemma {:induction false} EntriesFilled(wrap: Wrapper, es: seq<Field>, p: string)
    requires forall k | 0 <= k < |es| :: PlainField(wrap, es[k])
    requires '\n' !in p
    ensures FilledLinesStartWith(Entries(wrap, es, p), p)
    ensures es != [] ==> IsPrefix(p, Entries(wrap, es, p))
    decreases SizeFields(es), 2, |es|
  {
    if es != [] {
      var key := Joined(wrap(es[0].key));
      var sub := Enclosed(wrap, es[0].value, p);
      IndentFilled(wrap, es[0].value, p);
      FilledWeaken(sub, p, Step);
      EntriesFilled(wrap, es[1..], p);
      KeyHead(p, key);
      GlueLine(p + key + ": ", sub, Entries(wrap, es[1..], p), p);
    }
  }

  lemma {:induction false} ItemsFilled(wrap: Wrapper, xs: seq<Json>, p: string)
    requires forall k | 0 <= k < |xs| :: PlainText(wrap, xs[k])
    requires '\n' !in p
    ensures FilledLinesStartWith(Items(wrap, xs, p), p)
    ensures xs != [] ==> IsPrefix(p, Items(wrap, xs, p))
    decreases SizeItems(xs), 2, |xs|
  {
    if xs != [] {
      var sub := Enclosed(wrap, xs[0], p);
      IndentFilled(wrap, xs[0], p);
      FilledWeaken(sub, p, Step);
      ItemsFilled(wrap, xs[1..], p);
      assert p[..|p|] == p;
      GlueLine(p, sub, Items(wrap, xs[1..], p), p);
    }
  }

  /** The head of a dict entry starts with its indentation and has no newline. */
  lemma KeyHead(p: string, key: string)
    requires '\n' !in p && '\n' !in key
    ensures '\n' !in p + key + ": "
    ensures IsPrefix(p, p + key + ": ")
  {
    var h := p + key + ": ";
    assert h[..|p|] == p;
    forall k | 0 <= k < |h|
      ensures h[k] != '\n'
    {
      if k < |p| {
        assert h[k] == p[k];
      } else if k < |p| + |key| {
        assert h[k] == key[k - |p|];
      }
    }
  }

  /** One turn of a loop, `head + value + "\n"`, followed by the rest of it. */
  lemma GlueLine(head: string, sub: string, rest: string, p: string)
    requires '\n' !in head && IsPrefix(p, head)
    requires FilledLinesStartWith(sub, p) && FilledLinesStartWith(rest, p)
    requires rest != "" ==> IsPrefix(p, rest)
    ensures FilledLinesStartWith(head + sub + "\n" + rest, p)
    ensures IsPrefix(p, head + sub + "\n" + rest)
  {
    FilledShort("\n", p);
    FilledConcat("\n", rest, p);
    FilledConcat(sub, "\n" + rest, p);
    FilledWithoutNewline(head, p);
    if head != "" {
      assert head[|head| - 1] in head;
    }
    FilledConcat(head, sub + ("\n" + rest), p);
    assert head + sub + "\n" + rest == head + (sub + ("\n" + rest));
    PrefixExtends(p, head, sub + ("\n" + rest));
  }

  /** A non-empty dict opens a new line with its least key, indented by one
      Step more than `ind`, followed by ": ". */
  lemma FirstEntry(wrap: Wrapper, fs: seq<Field>, ind: string)
    requires fs != [] && '\n' !in ind
    requires '\n' !in Joined(wrap(SortByKey(fs)[0].key))
    ensures IsPrefix("\n" + (ind + Step + Joined(wrap(SortByKey(fs)[0].key)) + ": "), Enclosed(wrap, Obj(fs), ind))
    ensures forall k | 0 <= k < |fs| :: KeyAtMost(SortByKey(fs)[0].key, fs[k].key)
  {
    SortedFirstIsLeast(fs);
    PlainIndent(ind);
    var es := SortByKey(fs);
    var p := ind + Step;
    OpenEntry(p, Joined(wrap(es[0].key)), Enclosed(wrap, es[0].value, p), Entries(wrap, es[1..], p));
    DictOpens(wrap, fs, ind);
  }

  lemma DictOpens(wrap: Wrapper, fs: seq<Field>, ind: string)
    requires fs != []
    ensures var es := SortByKey(fs);
            var p := ind + Step;
            Enclosed(wrap, Obj(fs), ind)
            == Collapse("\n" + (p + Joined(wrap(es[0].key)) + ": " + Enclosed(wrap, es[0].value, p) + "\n" + Entries(wrap, es[1..], p)))
  {
  }

  /** The opening of a dict's dump, on abstract parts. */
  lemma OpenEntry(p: string, key: string, a: string, c: string)
    requires '\n' !in p && p != [] && '\n' !in key
    ensures IsPrefix("\n" + (p + key + ": "), Collapse("\n" + (p + key + ": " + a + "\n" + c)))
  {
    KeyHead(p, key);
    var head := p + key + ": ";
    assert head + a + "\n" + c == head + (a + "\n" + c);
    assert head[0] == p[0];
    OpenLine(head, a + "\n" + c);
  }

  /** A text of at most one character has no line after a newline. */
  lemma FilledShort(s: string, p: string)
    requires |s| <= 1
    ensures FilledLinesStartWith(s, p)
  {
  }
}

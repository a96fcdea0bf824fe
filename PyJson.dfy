/** Parsed JSON documents as Python's json module hands them to the scripts,
    and the handful of Python built-ins the scripts apply to them: str() of a
    scalar, truthiness, subscription, the `in` operator and iteration. */
module PyJson {

  datatype Option<+T> = None | Some(value: T)

  /** The Python exceptions that a malformed document can raise in the modelled code. */
  datatype PyError = KeyError | IndexError | TypeError | AttributeError

  datatype Result<+T> = Ok(value: T) | Err(error: PyError)

  /** A value produced by json.loads. A dict is the sequence of its items in
      the dict's own iteration order. Numbers with a fraction or an exponent
      are not part of the model. */
  datatype Json =
    | Null
    | Bool(b: bool)
    | Int(i: int)
    | Str(s: string)
    | Arr(items: seq<Json>)
    | Obj(fields: seq<Field>)

  datatype Field = Field(key: string, value: Json)

  /** An index as written between brackets: `x['key']` or `x[0]`. */
  datatype Index = Key(name: string) | Pos(n: int)

  predicate IsScalar(j: Json)
  {
    !j.Arr? && !j.Obj?
  }

  predicate IsEmptyContainer(j: Json)
  {
    j == Arr([]) || j == Obj([])
  }

  /** No two items of a dict share a key. */
  predicate DistinctKeys(fs: seq<Field>)
  {
    forall i, j | 0 <= i < j < |fs| :: fs[i].key != fs[j].key
  }

  // ---------------------------------------------------------------- str()

  function DigitChar(d: nat): (c: char)
    requires d < 10
    ensures '0' <= c <= '9'
  {
    "0123456789"[d]
  }

  function DigitValue(c: char): nat
  {
    if '0' <= c <= '9' then (c - '0') as nat else 0
  }

  /** Decimal digits of n, most significant first, without leading zeros. */
  function NatToString(n: nat): (r: string)
    ensures |r| > 0
    ensures forall k | 0 <= k < |r| :: '0' <= r[k] <= '9'
    ensures n > 0 ==> r[0] != '0'
  {
    if n < 10 then [DigitChar(n)] else NatToString(n / 10) + [DigitChar(n % 10)]
  }

  /** The number a string of decimal digits denotes. */
  function DecimalValue(s: string): nat
  {
    if s == [] then 0 else 10 * DecimalValue(s[..|s| - 1]) + DigitValue(s[|s| - 1])
  }

  lemma {:induction false} NatToStringRoundTrip(n: nat)
    ensures DecimalValue(NatToString(n)) == n
  {
    if n >= 10 {
      NatToStringRoundTrip(n / 10);
      var r := NatToString(n);
      assert r[..|r| - 1] == NatToString(n / 10);
    }
  }

  /** Python's str() of an int. */
  function IntToString(i: int): (r: string)
    ensures '\n' !in r
  {
    if i < 0 then "-" + NatToString(-i) else NatToString(i)
  }

  /** Python's str() of a scalar; a string is its own text. */
  function PyStr(j: Json): string
    requires IsScalar(j)
  {
    match j
    case Null => "None"
    case Bool(b) => if b then "True" else "False"
    case Int(i) => IntToString(i)
    case Str(s) => s
  }

  /** ''.join(lines) */
  function Joined(lines: seq<string>): string
  {
    if lines == [] then "" else lines[0] + Joined(lines[1..])
  }

  // ---------------------------------------------------------------- truthiness

  /** Python's bool(): None, False, 0, '' and empty containers are false. */
  predicate Truthy(j: Json)
  {
    match j
    case Null => false
    case Bool(b) => b
    case Int(i) => i != 0
    case Str(s) => s != ""
    case Arr(xs) => xs != []
    case Obj(fs) => fs != []
  }

  /** Truthiness of an optional command-line string (None or ''). */
  predicate TruthyArg(a: Option<string>)
  {
    a.Some? && a.value != ""
  }

  // ---------------------------------------------------------------- x[k]

  /** The value stored under a key: the first item carrying it. */
  function Lookup(fs: seq<Field>, key: string): (r: Option<Json>)
    ensures r.None? <==> forall k | 0 <= k < |fs| :: fs[k].key != key
    ensures r.Some? ==> exists k | 0 <= k < |fs| :: fs[k] == Field(key, r.value)
  {
    if fs == [] then None
    else if fs[0].key == key then Some(fs[0].value)
    else
      var r := Lookup(fs[1..], key);
      assert r.Some? ==> exists k | 0 <= k < |fs[1..]| :: fs[1..][k] == Field(key, r.value);
      r
  }

  /** Python's x[k] on a parsed document. Dict keys are strings, so an integer
      index into a dict is a KeyError; a string subscripted by a position is
      its one-character substring. Negative positions count from the end. */
  function Subscript(j: Json, k: Index): (r: Result<Json>)
    ensures j.Obj? && k.Key? ==> (r.Ok? <==> Lookup(j.fields, k.name).Some?)
    ensures r.Ok? && j.Arr? ==> r.value in j.items
    ensures IsScalar(j) && !j.Str? ==> r == Err(TypeError)
  {
    match (j, k)
    case (Obj(fs), Key(name)) =>
      (match Lookup(fs, name)
       case Some(v) => Ok(v)
       case None => Err(KeyError))
    case (Obj(_), Pos(_)) => Err(KeyError)
    case (Arr(xs), Pos(n)) =>
      if 0 <= n < |xs| then Ok(xs[n])
      else if -|xs| <= n < 0 then Ok(xs[|xs| + n])
      else Err(IndexError)
    case (Str(s), Pos(n)) =>
      if 0 <= n < |s| then Ok(Str([s[n]]))
      else if -|s| <= n < 0 then Ok(Str([s[|s| + n]]))
      else Err(IndexError)
    case (_, _) => Err(TypeError)
  }

  /** Follows a chain of subscriptions, `x[a][b][c]`, stopping at the first exception. */
  function Dig(j: Json, path: seq<Index>): (r: Result<Json>)
    ensures path == [] ==> r == Ok(j)
    decreases path
  {
    if path == [] then Ok(j)
    else
      match Subscript(j, path[0])
      case Ok(v) => Dig(v, path[1..])
      case Err(e) => Err(e)
  }

  /** Subscribing along `p` and then along `q` is subscribing along `p + q`. */
  lemma {:induction false} DigConcat(j: Json, p: seq<Index>, q: seq<Index>)
    ensures Dig(j, p + q) == (match Dig(j, p) case Ok(v) => Dig(v, q) case Err(e) => Err(e))
    decreases p
  {
    if p == [] {
      assert p + q == q;
    } else {
      assert (p + q)[0] == p[0] && (p + q)[1..] == p[1..] + q;
      match Subscript(j, p[0])
      case Ok(v) => DigConcat(v, p[1..], q);
      case Err(_) =>
    }
  }

  // ---------------------------------------------------------------- `in`, iteration

  predicate IsPrefix(p: string, s: string)
  {
    |p| <= |s| && s[..|p|] == p
  }

  /** `needle in s` for two strings. */
  predicate IsSubstring(needle: string, s: string)
  {
    IsPrefix(needle, s) || (s != [] && IsSubstring(needle, s[1..]))
  }

  /** Python's `needle in container` with a string needle: a key test on a
      dict, an element test on a list, a substring test on a string, and a
      TypeError on anything else. */
  function Contains(container: Json, needle: string): (r: Result<bool>)
    ensures container.Obj? ==> r == Ok(Lookup(container.fields, needle).Some?)
    ensures r.Err? <==> IsScalar(container) && !container.Str?
  {
    match container
    case Obj(fs) => Ok(Lookup(fs, needle).Some?)
    case Arr(xs) => Ok(Str(needle) in xs)
    case Str(s) => Ok(IsSubstring(needle, s))
    case _ => Err(TypeError)
  }

  function Keys(fs: seq<Field>): (r: seq<Json>)
    ensures |r| == |fs|
    ensures forall k | 0 <= k < |fs| :: r[k] == Str(fs[k].key)
  {
    if fs == [] then [] else [Str(fs[0].key)] + Keys(fs[1..])
  }

  function Chars(s: string): (r: seq<Json>)
    ensures |r| == |s|
    ensures forall k | 0 <= k < |s| :: r[k] == Str([s[k]])
  {
    if s == [] then [] else [Str([s[0]])] + Chars(s[1..])
  }

  /** What `for x in j` visits: list items, dict keys, or one-character strings. */
  function Iterate(j: Json): (r: Result<seq<Json>>)
    ensures r.Err? <==> IsScalar(j) && !j.Str?
  {
    match j
    case Arr(xs) => Ok(xs)
    case Obj(fs) => Ok(Keys(fs))
    case Str(s) => Ok(Chars(s))
    case _ => Err(TypeError)
  }

  // ---------------------------------------------------------------- census

  /** Number of scalar leaves of a document. */
  function Leaves(j: Json): nat
  {
    match j
    case Arr(xs) => LeavesItems(xs)
    case Obj(fs) => LeavesFields(fs)
    case _ => 1
  }

  function LeavesItems(xs: seq<Json>): nat
  {
    if xs == [] then 0 else Leaves(xs[0]) + LeavesItems(xs[1..])
  }

  function LeavesFields(fs: seq<Field>): nat
  {
    if fs == [] then 0 else Leaves(fs[0].value) + LeavesFields(fs[1..])
  }

  /** Number of dicts and lists in a document, the document itself included. */
  function Containers(j: Json): nat
  {
    match j
    case Arr(xs) => 1 + ContainersItems(xs)
    case Obj(fs) => 1 + ContainersFields(fs)
    case _ => 0
  }

  function ContainersItems(xs: seq<Json>): nat
  {
    if xs == [] then 0 else Containers(xs[0]) + ContainersItems(xs[1..])
  }

  function ContainersFields(fs: seq<Field>): nat
  {
    if fs == [] then 0 else Containers(fs[0].value) + ContainersFields(fs[1..])
  }

  /** Number of nodes; the measure the recursive printers decrease. */
  function Size(j: Json): nat
  {
    Leaves(j) + Containers(j)
  }

  function SizeItems(xs: seq<Json>): nat
  {
    LeavesItems(xs) + ContainersItems(xs)
  }

  function SizeFields(fs: seq<Field>): nat
  {
    LeavesFields(fs) + ContainersFields(fs)
  }

  // ---------------------------------------------------------------- counting characters

  function Count(c: char, s: string): nat
  {
    if s == [] then 0 else (if s[0] == c then 1 else 0) + Count(c, s[1..])
  }

  lemma {:induction false} CountConcat(c: char, a: string, b: string)
    ensures Count(c, a + b) == Count(c, a) + Count(c, b)
  {
    if a == [] {
      assert a + b == b;
    } else {
      assert (a + b)[1..] == a[1..] + b;
      CountConcat(c, a[1..], b);
    }
  }

  lemma {:induction false} CountAbsent(c: char, s: string)
    requires c !in s
    ensures Count(c, s) == 0
  {
    if s != [] {
      CountAbsent(c, s[1..]);
    }
  }
}

/** Shared vocabulary: optional values, results, request fields, PHP string helpers. */
module Base {

  datatype Option<+T> = None | Some(value: T)

  datatype Result<+T, +E> = Ok(value: T) | Err(error: E)

  /** One key of a request payload or of a model's attribute array: absent,
      present with a null value, or present with a value. */
  datatype Field<+T> = Missing | Null | Given(value: T) {
    /** Laravel's Request::has(): the key is present, even when it is null. */
    predicate Present() { !Missing? }
  }

  /** Timestamps are seconds on one clock; the time of day is a parameter. */
  type Timestamp = int

  /** The characters PHP's trim() removes by default. */
  predicate IsTrimmed(ch: char) {
    ch == ' ' || ch == '\t' || ch == '\n' || ch == '\r' || ch == '\0' || ch == 11 as char
  }

  /** trim(s) === '' */
  predicate IsBlank(s: string) {
    forall i | 0 <= i < |s| :: IsTrimmed(s[i])
  }

  /** Laravel's Request::filled(): present, not null and not blank. */
  predicate Filled(f: Field<string>) {
    f.Given? && !IsBlank(f.value)
  }

  /** PHP's empty() on a string attribute: absent, null, "" and "0" are empty. */
  predicate EmptyString(f: Field<string>) {
    !f.Given? || f.value == "" || f.value == "0"
  }

  /** PHP's empty() on an integer attribute: absent, null and 0 are empty. */
  predicate EmptyInt(f: Field<int>) {
    !f.Given? || f.value == 0
  }

  /** Nullable column: an absent or null key stores NULL. */
  function ToOption<T>(f: Field<T>): (r: Option<T>)
    ensures r.Some? <==> f.Given?
    ensures r.Some? ==> r.value == f.value
  {
    if f.Given? then Some(f.value) else None
  }

  /** Eloquent fill on a nullable column: an absent key keeps the current value. */
  function Overwrite<T>(f: Field<T>, current: Option<T>): (r: Option<T>)
    ensures f.Missing? ==> r == current
    ensures f.Null? ==> r == None
    ensures f.Given? ==> r == Some(f.value)
  {
    match f
    case Missing => current
    case Null => None
    case Given(v) => Some(v)
  }

  /** The characters PHP's validation filters strip from both ends of a value:
      space, tab, carriage return, vertical tab and newline. */
  predicate IsFilterSpace(ch: char) {
    ch == ' ' || ch == '\t' || ch == '\r' || ch == 11 as char || ch == '\n'
  }

  /** s without its leading filter whitespace. */
  function TrimStart(s: string): (r: string)
    ensures |r| <= |s| && r == s[|s| - |r|..]
    ensures forall i | 0 <= i < |s| - |r| :: IsFilterSpace(s[i])
    ensures r == [] || !IsFilterSpace(r[0])
    decreases |s|
  {
    if s != [] && IsFilterSpace(s[0]) then TrimStart(s[1..]) else s
  }

  /** s without its trailing filter whitespace. */
  function TrimEnd(s: string): (r: string)
    ensures |r| <= |s| && r == s[..|r|]
    ensures forall i | |r| <= i < |s| :: IsFilterSpace(s[i])
    ensures r == [] || !IsFilterSpace(r[|r| - 1])
    decreases |s|
  {
    if s != [] && IsFilterSpace(s[|s| - 1]) then TrimEnd(s[..|s| - 1]) else s
  }

  /** Filter whitespace around a run of other characters is all that goes. */
  lemma {:induction false} TrimStartSkips(a: string, s: string)
    requires forall i | 0 <= i < |a| :: IsFilterSpace(a[i])
    requires s == [] || !IsFilterSpace(s[0])
    ensures TrimStart(a + s) == s
  {
    if a != [] {
      assert (a + s)[1..] == a[1..] + s;
      TrimStartSkips(a[1..], s);
    } else {
      assert a + s == s;
    }
  }

  lemma {:induction false} TrimEndSkips(s: string, c: string)
    requires forall i | 0 <= i < |c| :: IsFilterSpace(c[i])
    requires s == [] || !IsFilterSpace(s[|s| - 1])
    ensures TrimEnd(s + c) == s
  {
    if c != [] {
      assert (s + c)[..|s + c| - 1] == s + c[..|c| - 1];
      TrimEndSkips(s, c[..|c| - 1]);
    } else {
      assert s + c == s;
    }
  }

  /** ASCII case folding, as strncasecmp compares. */
  function LowerChar(ch: char): (r: char)
    ensures 'A' <= ch <= 'Z' ==> r as int == ch as int + 32
    ensures !('A' <= ch <= 'Z') ==> r == ch
  {
    if 'A' <= ch <= 'Z' then (ch as int + 32) as char else ch
  }

  function Lower(s: string): (r: string)
    ensures |r| == |s| && forall i | 0 <= i < |s| :: r[i] == LowerChar(s[i])
  {
    seq(|s|, i requires 0 <= i < |s| => LowerChar(s[i]))
  }

  predicate IsPrefix(p: string, s: string) {
    |p| <= |s| && s[..|p|] == p
  }

  /** `needle` occurs contiguously in `haystack` (SQL LIKE '%needle%' without
      wildcards in the needle and without case folding). */
  predicate Contains(haystack: string, needle: string)
    decreases |haystack|
  {
    IsPrefix(needle, haystack) || (|haystack| > 0 && Contains(haystack[1..], needle))
  }

  lemma {:induction false} ContainsInfix(a: string, needle: string, b: string)
    ensures Contains(a + needle + b, needle)
  {
    if a == [] {
      assert (a + needle + b)[..|needle|] == needle;
    } else {
      assert (a + needle + b)[1..] == a[1..] + needle + b;
      ContainsInfix(a[1..], needle, b);
    }
  }

  /** max(1, ceil(n / d)): the number of blocks of size d needed for n items,
      never fewer than one. */
  function CeilAtLeastOne(n: nat, d: nat): (r: nat)
    requires d > 0
    ensures r >= 1
    ensures n <= r * d
    ensures r == 1 || (r - 1) * d < n
  {
    var q := n / d;
    if q * d == n then
      (if q == 0 then 1 else q)
    else
      assert q * d < n < (q + 1) * d;
      q + 1
  }

  /** Code-point lexicographic order on strings (ORDER BY name, without collation). */
  predicate LexLe(a: string, b: string)
    decreases |a|
  {
    if a == [] then true
    else if b == [] then false
    else if a[0] != b[0] then a[0] < b[0]
    else LexLe(a[1..], b[1..])
  }

  lemma {:induction false} LexLeTotal(a: string, b: string)
    ensures LexLe(a, b) || LexLe(b, a)
    decreases |a|
  {
    if a != [] && b != [] && a[0] == b[0] {
      LexLeTotal(a[1..], b[1..]);
    }
  }

  lemma {:induction false} LexLeTransitive(a: string, b: string, c: string)
    requires LexLe(a, b) && LexLe(b, c)
    ensures LexLe(a, c)
    decreases |a|
  {
    if a != [] && b != [] && c != [] && a[0] == b[0] && b[0] == c[0] {
      LexLeTransitive(a[1..], b[1..], c[1..]);
    }
  }
}

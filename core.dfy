/**
 * Values shared by every part of the profiler model: optional values, the
 * Ruby exceptions the modelled code can raise, call results, and the few
 * Array and String operations the Ruby code relies on (`uniq`, `|`,
 * `start_with?`, `ljust`, `join`, `Integer#to_s`).
 */
module Core {

  datatype Option<T> = None | Some(value: T)

  /** The Ruby exceptions the modelled code raises or lets through. */
  datatype Error =
    | NameError(name: string)          // alias_method of an undefined method; an undefined bare name
    | NoMethodError(name: string)      // a call of a method the receiver lacks
    | ArgumentError(message: string)   // e.g. Array.new with a negative size
    | IndexError                       // Array#transpose of ragged rows
    | SystemStackError                 // unbounded re-dispatch
    | AppError(code: nat)              // whatever an instrumented method raises

  /** The outcome of a Ruby call: a returned value or a raised exception. */
  datatype Result<T> = Success(value: T) | Failure(error: Error)

  predicate Distinct<T(==)>(s: seq<T>) {
    forall i, j :: 0 <= i < j < |s| ==> s[i] != s[j]
  }

  /** `String#start_with?` */
  predicate StartsWith(s: string, prefix: string) {
    |prefix| <= |s| && s[..|prefix|] == prefix
  }

  /** `Array#uniq`: keeps the first occurrence of every element, in order. */
  function Uniq<T(==, !new)>(s: seq<T>): (r: seq<T>)
    ensures forall x :: x in r <==> x in s
    ensures Distinct(r)
    ensures |r| <= |s|
  {
    if s == [] then []
    else
      var u := Uniq(s[..|s| - 1]);
      var last := s[|s| - 1];
      assert s == s[..|s| - 1] + [last];
      if last in u then u else u + [last]
  }

  lemma {:induction false} UniqOfDistinct<T(!new)>(s: seq<T>)
    requires Distinct(s)
    ensures Uniq(s) == s
  {
    if s != [] {
      UniqOfDistinct(s[..|s| - 1]);
      assert s[|s| - 1] !in s[..|s| - 1];
    }
  }

  /** Removing duplicates from a prefix first changes nothing: `(a.uniq + b).uniq == (a + b).uniq`. */
  lemma {:induction false} UniqOfUniqPrefix<T(!new)>(a: seq<T>, b: seq<T>)
    ensures Uniq(Uniq(a) + b) == Uniq(a + b)
    decreases |b|
  {
    if b == [] {
      assert Uniq(a) + b == Uniq(a) && a + b == a;
      UniqOfDistinct(Uniq(a));
    } else {
      var b' := b[..|b| - 1];
      UniqOfUniqPrefix(a, b');
      assert (Uniq(a) + b)[..|Uniq(a) + b| - 1] == Uniq(a) + b';
      assert (a + b)[..|a + b| - 1] == a + b';
    }
  }

  /** `Array#|`: the elements of `a` then those of `b`, first occurrences only. */
  function ArrayUnion<T(==, !new)>(a: seq<T>, b: seq<T>): (r: seq<T>)
    ensures forall x :: x in r <==> x in a || x in b
    ensures Distinct(r)
  {
    Uniq(a + b)
  }

  function Spaces(n: nat): (r: string)
    ensures |r| == n && forall i :: 0 <= i < n ==> r[i] == ' '
  {
    if n == 0 then "" else Spaces(n - 1) + " "
  }

  /** `String#ljust(width)`: pads on the right with spaces, never truncates. */
  function LJust(s: string, width: int): (r: string)
    ensures |r| == if |s| < width then width else |s|
    ensures r[..|s|] == s
    ensures forall i :: |s| <= i < |r| ==> r[i] == ' '
  {
    if |s| < width then s + Spaces(width - |s|) else s
  }

  /** `Array#join(sep)` over strings. */
  function Join(parts: seq<string>, sep: string): (r: string)
  {
    if parts == [] then ""
    else if |parts| == 1 then parts[0]
    else Join(parts[..|parts| - 1], sep) + sep + parts[|parts| - 1]
  }

  lemma {:induction false} JoinLength(parts: seq<string>, sep: string)
    requires parts != []
    ensures |Join(parts, sep)| == SumLengths(parts) + (|parts| - 1) * |sep|
  {
    if |parts| > 1 {
      JoinLength(parts[..|parts| - 1], sep);
      assert parts == parts[..|parts| - 1] + [parts[|parts| - 1]];
      SumLengthsAppend(parts[..|parts| - 1], parts[|parts| - 1]);
    }
  }

  function SumLengths(parts: seq<string>): nat {
    if parts == [] then 0 else |parts[0]| + SumLengths(parts[1..])
  }

  lemma {:induction false} SumLengthsAppend(parts: seq<string>, s: string)
    ensures SumLengths(parts + [s]) == SumLengths(parts) + |s|
  {
    if parts != [] {
      assert (parts + [s])[1..] == parts[1..] + [s];
      SumLengthsAppend(parts[1..], s);
    }
  }

  function DigitChar(d: nat): (c: char)
    requires d < 10
  {
    "0123456789"[d]
  }

  /** `Integer#to_s` in base 10. */
  function IntToString(i: int): (r: string)
    ensures r != []
  {
    if i < 0 then "-" + NatToString(-i) else NatToString(i)
  }

  function NatToString(n: nat): (r: string)
    ensures r != []
    ensures forall k :: 0 <= k < |r| ==> '0' <= r[k] <= '9'
    decreases n
  {
    if n < 10 then [DigitChar(n)] else NatToString(n / 10) + [DigitChar(n % 10)]
  }

  /** Ruby's `String#<=>` on the strings of this model: lexicographic by character. */
  predicate StrLe(a: string, b: string)
    decreases |a|
  {
    if a == [] then true
    else if b == [] then false
    else if a[0] != b[0] then a[0] < b[0]
    else StrLe(a[1..], b[1..])
  }

  lemma {:induction false} StrLeTotal(a: string, b: string)
    ensures StrLe(a, b) || StrLe(b, a)
    decreases |a|
  {
    if a != [] && b != [] && a[0] == b[0] {
      StrLeTotal(a[1..], b[1..]);
    }
  }

  lemma {:induction false} StrLeTransitive(a: string, b: string, c: string)
    requires StrLe(a, b) && StrLe(b, c)
    ensures StrLe(a, c)
    decreases |a|
  {
    if a != [] && b != [] && c != [] && a[0] == b[0] && b[0] == c[0] {
      StrLeTransitive(a[1..], b[1..], c[1..]);
    }
  }
}

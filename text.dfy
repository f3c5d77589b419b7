/** The few JavaScript string and array primitives the model relies on:
    `split`/`join` on a one-character separator, `reverse`, `Number.prototype.toString`
    on integers, `parseInt` on text a regular expression has already checked, and
    `String.prototype.repeat`, and the remainder operator `%`. */
module Text {
  import opened Wrappers

  // ---------------------------------------------------------------- digits

  predicate IsDigit(c: char) {
    '0' <= c <= '9'
  }

  /** Every character is a decimal digit (the empty text included). */
  predicate AllDigits(s: string) {
    forall i :: 0 <= i < |s| ==> IsDigit(s[i])
  }

  /** The regular expression `[0-9]+`. */
  predicate IsDigits(s: string) {
    |s| >= 1 && AllDigits(s)
  }

  /** The regular expression `-?[0-9]+`. */
  predicate IsIntText(s: string) {
    IsDigits(s) || (|s| >= 2 && s[0] == '-' && IsDigits(s[1..]))
  }

  function DigitValue(c: char): (d: nat)
    requires IsDigit(c)
    ensures d < 10
  {
    (c as int - '0' as int) as nat
  }

  function DigitChar(d: nat): (c: char)
    requires d < 10
    ensures IsDigit(c) && DigitValue(c) == d
  {
    ('0' as int + d) as char
  }

  /** `parseInt` on a run of decimal digits (leading zeros allowed). */
  function ParseDigits(s: string): nat
    requires AllDigits(s)
  {
    if s == [] then 0 else 10 * ParseDigits(s[..|s| - 1]) + DigitValue(s[|s| - 1])
  }

  /** `parseInt` on text matching `-?[0-9]+`. */
  function ParseInt(s: string): int
    requires IsIntText(s)
  {
    if s[0] == '-' then 0 - ParseDigits(s[1..]) as int else ParseDigits(s)
  }

  /** The decimal text of a natural number, without leading zeros. */
  function NatToString(n: nat): (r: string)
    ensures |r| >= 1
  {
    if n < 10 then [DigitChar(n)]
    else NatToString(n / 10) + [DigitChar(n % 10)]
  }

  /** The decimal text is digits that `parseInt` reads back, with a leading zero only for 0. */
  lemma {:induction false} NatToStringParses(n: nat)
    ensures IsDigits(NatToString(n)) && ParseDigits(NatToString(n)) == n
    ensures NatToString(n)[0] == '0' ==> n == 0
  {
    if n >= 10 {
      NatToStringParses(n / 10);
      var r := NatToString(n);
      assert r[..|r| - 1] == NatToString(n / 10);
      assert r[0] == NatToString(n / 10)[0];
    }
  }

  /** `Number.prototype.toString()` on an integer: a minus sign for negative values. */
  function IntToString(i: int): (r: string)
    ensures |r| >= 1
  {
    if i < 0 then "-" + NatToString(-i) else NatToString(i)
  }

  /** The text `toString` gives matches `-?[0-9]+`, `parseInt` reads it back, and it
      holds a minus sign exactly when the number is negative. */
  lemma IntToStringParses(i: int)
    ensures IsIntText(IntToString(i)) && ParseInt(IntToString(i)) == i
    ensures '-' in IntToString(i) <==> i < 0
    ensures i < 0 ==> IntToString(i)[0] == '-'
    ensures i >= 0 ==> IsDigits(IntToString(i))
  {
    if i < 0 {
      NatToStringParses(-i);
      assert IntToString(i)[1..] == NatToString(-i);
    } else {
      NatToStringParses(i);
    }
  }

  lemma {:induction false} IntToStringInjective(a: int, b: int)
    requires IntToString(a) == IntToString(b)
    ensures a == b
  {
    IntToStringParses(a);
    IntToStringParses(b);
  }

  // ------------------------------------------------------- split and join

  /** `s.split(sep)` for a one-character separator: one piece more than there are separators. */
  function Split(s: string, sep: char): (r: seq<string>)
    ensures |r| >= 1
    ensures forall i :: 0 <= i < |r| ==> sep !in r[i]
  {
    if s == [] then [""]
    else if s[0] == sep then [""] + Split(s[1..], sep)
    else [[s[0]] + Split(s[1..], sep)[0]] + Split(s[1..], sep)[1..]
  }

  /** `parts.join(sep)`. */
  function Join(parts: seq<string>, sep: char): string
  {
    if |parts| == 0 then ""
    else if |parts| == 1 then parts[0]
    else parts[0] + [sep] + Join(parts[1..], sep)
  }

  /** Joining the pieces of a split gives back the original text. */
  lemma {:induction false} JoinSplit(s: string, sep: char)
    ensures Join(Split(s, sep), sep) == s
  {
    if s != [] {
      JoinSplit(s[1..], sep);
      var rest := Split(s[1..], sep);
      if s[0] == sep {
        assert Split(s, sep) == [""] + rest;
        assert ([""] + rest)[1..] == rest;
      } else {
        var r := Split(s, sep);
        assert r == [[s[0]] + rest[0]] + rest[1..];
        if |rest| == 1 {
          assert r == [[s[0]] + rest[0]];
        } else {
          assert r[1..] == rest[1..];
          assert Join(rest, sep) == rest[0] + [sep] + Join(rest[1..], sep);
        }
      }
    }
  }

  /** A piece free of the separator, followed by the separator, splits off as one piece. */
  lemma {:induction false} SplitAfterPiece(a: string, sep: char, t: string)
    requires sep !in a
    ensures Split(a + [sep] + t, sep) == [a] + Split(t, sep)
  {
    if a != [] {
      SplitAfterPiece(a[1..], sep, t);
      var x := a + [sep] + t;
      assert x[0] == a[0] && x[0] != sep;
      assert x[1..] == a[1..] + [sep] + t;
      var rest := Split(x[1..], sep);
      assert rest == [a[1..]] + Split(t, sep);
      assert [a[0]] + a[1..] == a;
    } else {
      assert a + [sep] + t == [sep] + t;
      assert ([sep] + t)[1..] == t;
    }
  }

  /** Text free of the separator splits into itself. */
  lemma {:induction false} SplitWithoutSeparator(a: string, sep: char)
    requires sep !in a
    ensures Split(a, sep) == [a]
  {
    if a != [] {
      SplitWithoutSeparator(a[1..], sep);
      assert [a[0]] + a[1..] == a;
    }
  }

  /** Splitting a join gives back the pieces when none of them holds the separator. */
  lemma {:induction false} SplitJoin(parts: seq<string>, sep: char)
    requires |parts| >= 1
    requires forall i :: 0 <= i < |parts| ==> sep !in parts[i]
    ensures Split(Join(parts, sep), sep) == parts
  {
    if |parts| == 1 {
      SplitWithoutSeparator(parts[0], sep);
    } else {
      SplitJoin(parts[1..], sep);
      SplitAfterPiece(parts[0], sep, Join(parts[1..], sep));
      assert [parts[0]] + parts[1..] == parts;
    }
  }

  // ---------------------------------------------------------------- arrays

  /** `Array.prototype.reverse`. */
  function Reverse<T>(s: seq<T>): (r: seq<T>)
    ensures |r| == |s|
    ensures forall i :: 0 <= i < |s| ==> r[i] == s[|s| - 1 - i]
  {
    if s == [] then [] else Reverse(s[1..]) + [s[0]]
  }

  lemma ReverseAt<T>(s: seq<T>, i: int)
    requires 0 <= i < |s|
    ensures Reverse(s)[i] == s[|s| - 1 - i]
  {
  }

  lemma ReverseReverse<T>(s: seq<T>)
    ensures Reverse(Reverse(s)) == s
  {
  }

  /** `c.repeat(n)` for a count the caller has already checked to be non-negative. */
  function Repeat(c: char, n: nat): (r: string)
    ensures |r| == n
    ensures forall i :: 0 <= i < n ==> r[i] == c
  {
    seq(n, _ => c)
  }

  /** `c.repeat(n)`: a RangeError for a negative count. */
  function JsRepeat(c: char, n: int): (r: Result<string>)
    ensures r.Ok? <==> n >= 0
    ensures r.Ok? ==> r.value == Repeat(c, n)
  {
    if n < 0 then Err(RangeError("Invalid count value: " + IntToString(n))) else Ok(Repeat(c, n))
  }

  // ------------------------------------------------------------- numbers

  /** JavaScript's `a % 12`: the remainder takes the sign of `a`, where Dafny's `%` is
      never negative. */
  function JsRem12(a: int): (r: int)
    ensures -12 < r < 12
    ensures (a - r) % 12 == 0
    ensures a >= 0 ==> r == a % 12
    ensures a < 0 ==> r <= 0
  {
    if a >= 0 then a % 12 else -((-a) % 12)
  }
}

/** The string operations the combobox and its translator rely on, written out
    over `seq<char>`: `toLowerCase` (ASCII letters only), `trim`, `includes`,
    `split` on one character, and the decimal rendering of an integer. */
module TextOps {

  predicate IsUpper(c: char) { 'A' <= c <= 'Z' }

  function LowerChar(c: char): char
  {
    if IsUpper(c) then (c as int + 32) as char else c
  }

  /** `s.toLowerCase()` on the ASCII range: every upper-case letter is mapped to
      its lower-case counterpart, every other character is kept. */
  function Lower(s: string): (r: string)
    ensures |r| == |s|
    ensures forall i :: 0 <= i < |s| ==> r[i] == LowerChar(s[i])
  {
    seq(|s|, i requires 0 <= i < |s| => LowerChar(s[i]))
  }

  predicate NoUpper(s: string) { forall i :: 0 <= i < |s| ==> !IsUpper(s[i]) }

  /** Lower-casing leaves no upper-case letter behind and is idempotent. */
  lemma LowerIsLower(s: string)
    ensures NoUpper(Lower(s))
    ensures Lower(Lower(s)) == Lower(s)
  {
    LowerOfNoUpper(Lower(s));
  }

  /** A string without upper-case letters is its own lower-case form. */
  lemma LowerOfNoUpper(s: string)
    requires NoUpper(s)
    ensures Lower(s) == s
  {
  }

  /** The white-space characters `trim` removes (the ASCII ones, the
      no-break space and the byte-order mark). */
  predicate IsWhitespace(c: char)
  {
    c == ' ' || c == '\t' || c == '\n' || c == '\r' || c == '\U{0B}' || c == '\U{0C}'
    || c == '\U{A0}' || c == '\U{FEFF}'
  }

  /** Number of leading white-space characters. */
  function TrimStartIndex(s: string): (i: nat)
    ensures i <= |s|
    ensures forall k :: 0 <= k < i ==> IsWhitespace(s[k])
    ensures i < |s| ==> !IsWhitespace(s[i])
    decreases |s|
  {
    if s != [] && IsWhitespace(s[0]) then 1 + TrimStartIndex(s[1..]) else 0
  }

  /** Length of `s` without its trailing white-space characters. */
  function TrimEndIndex(s: string): (j: nat)
    ensures j <= |s|
    ensures forall k :: j <= k < |s| ==> IsWhitespace(s[k])
    ensures 0 < j ==> !IsWhitespace(s[j - 1])
    decreases |s|
  {
    if s != [] && IsWhitespace(s[|s| - 1]) then TrimEndIndex(s[..|s| - 1]) else |s|
  }

  /** `s.trim()`: the slice of `s` between its leading and its trailing
      white space. */
  function Trim(s: string): (r: string)
    ensures |r| <= |s|
    ensures r == [] || (!IsWhitespace(r[0]) && !IsWhitespace(r[|r| - 1]))
    ensures r == [] <==> forall k :: 0 <= k < |s| ==> IsWhitespace(s[k])
  {
    var i, j := TrimStartIndex(s), TrimEndIndex(s);
    if i < j then s[i..j] else []
  }

  /** Everything `trim` removes is white space, and what it keeps is one
      contiguous piece of the input. */
  lemma TrimIsSlice(s: string)
    ensures exists i, j ::
      (0 <= i <= j <= |s| && Trim(s) == s[i..j]
       && (forall k :: 0 <= k < i ==> IsWhitespace(s[k]))
       && (forall k :: j <= k < |s| ==> IsWhitespace(s[k])))
  {
    var i, j := TrimStartIndex(s), TrimEndIndex(s);
    if i < j {
      assert Trim(s) == s[i..j];
    } else {
      assert Trim(s) == s[i..i];
    }
  }

  /** Trimming twice is trimming once. */
  lemma TrimIdempotent(s: string)
    ensures Trim(Trim(s)) == Trim(s)
  {
    var t := Trim(s);
    if t != [] {
      assert TrimStartIndex(t) == 0;
      assert TrimEndIndex(t) == |t|;
    }
  }

  /** `s` has `t` as a prefix. */
  predicate StartsWith(s: string, t: string)
  {
    |t| <= |s| && s[..|t|] == t
  }

  /** `t` occurs in `s` starting at position `k`. */
  predicate OccursAt(s: string, t: string, k: int)
  {
    0 <= k && k + |t| <= |s| && s[k..k + |t|] == t
  }

  /** `s.includes(t)`, by scanning the start positions from left to right. */
  predicate Includes(s: string, t: string)
    decreases |s|
  {
    StartsWith(s, t) || (s != [] && Includes(s[1..], t))
  }

  /** The scan finds `t` exactly when `t` occurs somewhere in `s`. */
  lemma {:induction false} IncludesIff(s: string, t: string)
    ensures Includes(s, t) <==> exists k :: OccursAt(s, t, k)
    decreases |s|
  {
    if StartsWith(s, t) {
      assert OccursAt(s, t, 0);
    } else if s != [] {
      IncludesIff(s[1..], t);
      if Includes(s[1..], t) {
        var k :| OccursAt(s[1..], t, k);
        assert s[1..][k..k + |t|] == s[k + 1..k + 1 + |t|];
        assert OccursAt(s, t, k + 1);
      } else {
        forall k ensures !OccursAt(s, t, k) {
          if k == 0 && |t| <= |s| {
            assert s[0..|t|] == s[..|t|];
          } else if 0 < k && k + |t| <= |s| {
            assert s[1..][k - 1..k - 1 + |t|] == s[k..k + |t|];
            assert !OccursAt(s[1..], t, k - 1);
          }
        }
      }
    }
  }

  /** What a suffix of `s` includes, `s` includes. */
  lemma {:induction false} IncludesSuffix(s: string, t: string, k: nat)
    requires k <= |s| && Includes(s[k..], t)
    ensures Includes(s, t)
    decreases k
  {
    if k > 0 {
      assert s[1..][k - 1..] == s[k..];
      IncludesSuffix(s[1..], t, k - 1);
    }
  }

  /** Every string includes the empty string. */
  lemma IncludesEmpty(s: string)
    ensures Includes(s, "")
  {
    assert StartsWith(s, "");
  }

  /** `s.split(sep)` for a one-character separator: the pieces between the
      separators, always at least one. */
  function Split(s: string, sep: char): (r: seq<string>)
    ensures |r| >= 1
    ensures forall k :: 0 <= k < |r| ==> sep !in r[k]
    decreases |s|
  {
    if s == [] then [[]]
    else
      var rest := Split(s[1..], sep);
      if s[0] == sep then [[]] + rest
      else [[s[0]] + rest[0]] + rest[1..]
  }

  /** `parts.join(sep)`. */
  function Join(parts: seq<string>, sep: char): string
    requires |parts| >= 1
    decreases |parts|
  {
    if |parts| == 1 then parts[0] else parts[0] + [sep] + Join(parts[1..], sep)
  }

  /** Splitting loses nothing: joining the pieces back gives the input. */
  lemma {:induction false} JoinSplit(s: string, sep: char)
    ensures Join(Split(s, sep), sep) == s
    decreases |s|
  {
    if s != [] {
      var rest := Split(s[1..], sep);
      JoinSplit(s[1..], sep);
      if s[0] != sep {
        if |rest| == 1 {
          assert Split(s, sep) == [[s[0]] + rest[0]];
        } else {
          assert Split(s, sep)[1..] == rest[1..];
        }
      } else {
        assert Split(s, sep)[1..] == rest;
      }
    }
  }

  /** A string without the separator is a single piece. */
  lemma {:induction false} SplitWithoutSeparator(s: string, sep: char)
    requires sep !in s
    ensures Split(s, sep) == [s]
    decreases |s|
  {
    if s != [] {
      assert sep !in s[1..];
      SplitWithoutSeparator(s[1..], sep);
      assert [s[0]] + s[1..] == s;
    }
  }

  /** A piece without the separator, followed by the separator, splits off
      as the first piece. */
  lemma {:induction false} SplitAfterPiece(a: string, sep: char, b: string)
    requires sep !in a
    ensures Split(a + [sep] + b, sep) == [a] + Split(b, sep)
    decreases |a|
  {
    var s := a + [sep] + b;
    if a == [] {
      assert s[1..] == b;
    } else {
      assert s[1..] == a[1..] + [sep] + b;
      assert sep !in a[1..];
      SplitAfterPiece(a[1..], sep, b);
      assert [a[0]] + a[1..] == a;
    }
  }

  function DigitChar(d: nat): (c: char)
    requires d < 10
  {
    ('0' as int + d) as char
  }

  /** The number a string of decimal digits denotes, read most significant
      digit first (the inverse of `NatToString`). */
  function DecimalValue(s: string): int
    decreases |s|
  {
    if s == [] then 0 else 10 * DecimalValue(s[..|s| - 1]) + (s[|s| - 1] as int - '0' as int)
  }

  /** Decimal digits of `n`, most significant first, without leading zeros. */
  function NatToString(n: nat): (r: string)
    ensures |r| >= 1
    ensures forall k :: 0 <= k < |r| ==> '0' <= r[k] <= '9'
    ensures r[0] == '0' ==> n == 0 && |r| == 1
    decreases n
  {
    if n < 10 then [DigitChar(n)] else NatToString(n / 10) + [DigitChar(n % 10)]
  }

  /** The digits `NatToString` writes denote the number itself. */
  lemma {:induction false} NatToStringValue(n: nat)
    ensures DecimalValue(NatToString(n)) == n
    decreases n
  {
    var r := NatToString(n);
    if n >= 10 {
      NatToStringValue(n / 10);
      assert r[..|r| - 1] == NatToString(n / 10);
    }
  }

  /** `String(i)` for an integer value: an optional minus sign, then the
      digits of the magnitude. */
  function IntToString(i: int): (r: string)
    ensures r != []
    ensures (r[0] == '-') <==> i < 0
    ensures |r| > (if i < 0 then 1 else 0)
    ensures forall k :: (if i < 0 then 1 else 0) <= k < |r| ==> '0' <= r[k] <= '9'
    ensures r[if i < 0 then 1 else 0] == '0' ==> i == 0 && |r| == 1
    ensures i >= 0 ==> DecimalValue(r) == i
    ensures i < 0 ==> DecimalValue(r[1..]) == -i
  {
    if i < 0 then
      NatToStringValue(-i);
      assert ("-" + NatToString(-i))[1..] == NatToString(-i);
      "-" + NatToString(-i)
    else
      NatToStringValue(i);
      NatToString(i)
  }
}

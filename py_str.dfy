/** The Python `str` built-ins that the knowledge-base and tool code rely on,
    over `string` (a Dafny `char` is a Unicode scalar value, which is what
    Python's `len` counts). */
module PyStr {

  function Min(a: int, b: int): int { if a <= b then a else b }

  /** Python's `str.isspace` on one character: exactly the characters that
      `str.strip()` with no argument removes. */
  predicate IsSpace(c: char) {
    || c == ' '
    || '\t' <= c <= '\r'
    || '\U{1C}' <= c <= '\U{1F}'
    || c == '\U{85}' || c == '\U{A0}' || c == '\U{1680}'
    || '\U{2000}' <= c <= '\U{200A}'
    || c == '\U{2028}' || c == '\U{2029}' || c == '\U{202F}' || c == '\U{205F}' || c == '\U{3000}'
  }

  /** Number of whitespace characters at the start of `s`. */
  function LeadingSpace(s: string): (n: nat)
    ensures n <= |s|
    ensures forall i :: 0 <= i < n ==> IsSpace(s[i])
    ensures n < |s| ==> !IsSpace(s[n])
  {
    if s == [] || !IsSpace(s[0]) then 0 else 1 + LeadingSpace(s[1..])
  }

  /** Number of whitespace characters at the end of `s`. */
  function TrailingSpace(s: string): (n: nat)
    ensures n <= |s|
    ensures forall i :: |s| - n <= i < |s| ==> IsSpace(s[i])
    ensures n < |s| ==> !IsSpace(s[|s| - 1 - n])
  {
    if s == [] || !IsSpace(s[|s| - 1]) then 0 else 1 + TrailingSpace(s[..|s| - 1])
  }

  /** Neither end of `s` is whitespace. */
  predicate IsStripped(s: string) {
    s == [] || (!IsSpace(s[0]) && !IsSpace(s[|s| - 1]))
  }

  /** Python's `s.strip()`: the longest infix of `s` that starts after the
      leading whitespace and ends before the trailing whitespace. */
  function Strip(s: string): (r: string)
    ensures IsStripped(r)
    ensures LeadingSpace(s) + |r| <= |s| && r == s[LeadingSpace(s)..LeadingSpace(s) + |r|]
    ensures forall i :: LeadingSpace(s) + |r| <= i < |s| ==> IsSpace(s[i])
  {
    var t := s[LeadingSpace(s)..];
    t[..|t| - TrailingSpace(t)]
  }

  /** Stripping a string with no whitespace at either end changes nothing. */
  lemma StripKeepsStripped(s: string)
    requires IsStripped(s)
    ensures Strip(s) == s
  {
  }

  /** Python's slice `s[-k:]`. It is always a suffix of `s`: the last
      `min(k, |s|)` characters when `k > 0`, all of `s` when `k == 0`
      (since `-0 == 0`), and `s` without its first `-k` characters when `k < 0`. */
  function Tail(s: string, k: int): (r: string)
    ensures |r| <= |s| && r == s[|s| - |r|..]
    ensures |r| == if k > 0 then Min(k, |s|) else if k == 0 then |s| else if -k >= |s| then 0 else |s| + k
  {
    if k > 0 then (if k >= |s| then s else s[|s| - k..])
    else if k == 0 then s
    else if -k >= |s| then ""
    else s[-k..]
  }

  /** `sub` occurs in `s` starting at index `k`. */
  predicate OccursAt(s: string, sub: string, k: int) {
    0 <= k <= |s| - |sub| && s[k..k + |sub|] == sub
  }

  /** Python's `s.endswith(suffix)`. */
  predicate EndsWith(s: string, suffix: string) {
    |suffix| <= |s| && s[|s| - |suffix|..] == suffix
  }

  /** Python's `sub in s`. */
  predicate Contains(s: string, sub: string) {
    exists k | 0 <= k <= |s| - |sub| :: OccursAt(s, sub, k)
  }

  /** A stripped, non-empty occurrence lies inside the stripped text: it
      cannot start in the leading whitespace or end in the trailing whitespace. */
  lemma StrippedOccurrenceInside(s: string, t: string, k: int)
    requires OccursAt(s, t, k) && IsStripped(t) && t != []
    ensures LeadingSpace(s) <= k && k + |t| <= LeadingSpace(s) + |Strip(s)|
  {
    assert s[k] == s[k..k + |t|][0] == t[0];
    assert s[k + |t| - 1] == s[k..k + |t|][|t| - 1] == t[|t| - 1];
  }

  /** An occurrence inside the window `s[a..b]` is an occurrence in the window. */
  lemma OccursInWindow(s: string, t: string, k: int, a: int, b: int)
    requires OccursAt(s, t, k) && 0 <= a <= k && k + |t| <= b <= |s|
    ensures OccursAt(s[a..b], t, k - a)
  {
    forall j | 0 <= j < |t|
      ensures s[a..b][k - a + j] == t[j]
    {
      assert s[a..b][k - a + j] == s[k + j] == s[k..k + |t|][j];
    }
    assert s[a..b][k - a..k - a + |t|] == t;
  }

  /** Stripping a text keeps every stripped piece of it. */
  lemma StripKeepsStrippedInfix(s: string, t: string)
    requires Contains(s, t) && IsStripped(t)
    ensures Contains(Strip(s), t)
  {
    var r := Strip(s);
    var a := LeadingSpace(s);
    if t == [] {
      assert OccursAt(r, t, 0);
    } else {
      var k :| 0 <= k <= |s| - |t| && OccursAt(s, t, k);
      StrippedOccurrenceInside(s, t, k);
      OccursInWindow(s, t, k, a, a + |r|);
      assert OccursAt(r, t, k - a);
    }
  }

  /** Python's `str.lower` restricted to what can change a match of an ASCII
      word: ASCII capitals and the KELVIN SIGN, which lowers to `k`. */
  function LowerChar(c: char): (d: char)
    ensures !('A' <= d <= 'Z') && d != '\U{212A}'
    ensures d == c || 'a' <= d <= 'z'
  {
    if 'A' <= c <= 'Z' then (c as int + 32) as char
    else if c == '\U{212A}' then 'k'
    else c
  }

  /** Python's `s.lower()`, character by character (see LowerChar). */
  function Lower(s: string): (r: string)
    ensures |r| == |s|
    ensures forall i :: 0 <= i < |s| ==> r[i] == LowerChar(s[i])
    ensures forall i :: 0 <= i < |r| ==> !('A' <= r[i] <= 'Z')
  {
    if s == [] then [] else [LowerChar(s[0])] + Lower(s[1..])
  }

  /** Python's `s.replace(from, to)` for one-character `from` and `to`. */
  function ReplaceChar(s: string, from: char, to: char): (r: string)
    ensures |r| == |s|
    ensures forall i :: 0 <= i < |s| ==> r[i] == (if s[i] == from then to else s[i])
    ensures from != to ==> from !in r
    ensures from !in s ==> r == s
  {
    if s == [] then [] else [if s[0] == from then to else s[0]] + ReplaceChar(s[1..], from, to)
  }

  /** Python's `sep.join(parts)`. */
  function Join(parts: seq<string>, sep: string): string {
    if |parts| == 0 then ""
    else if |parts| == 1 then parts[0]
    else parts[0] + sep + Join(parts[1..], sep)
  }

  /** Python's `s.split(sep)` for a non-empty separator: occurrences of `sep`
      are found from left to right without overlapping, and the pieces between
      them, empty ones included, are returned. Its first piece is a prefix of `s`. */
  function Split(s: string, sep: string): (r: seq<string>)
    requires sep != []
    ensures |r| >= 1
    ensures |r[0]| <= |s| && r[0] == s[..|r[0]|]
    decreases |s|
  {
    if |s| < |sep| then [s]
    else if s[..|sep|] == sep then [""] + Split(s[|sep|..], sep)
    else
      var rest := Split(s[1..], sep);
      [[s[0]] + rest[0]] + rest[1..]
  }

  /** Gluing `x` to the front of the first part glues it to the front of the join. */
  lemma JoinGlueFront(x: string, parts: seq<string>, sep: string)
    requires |parts| >= 1
    ensures Join([x + parts[0]] + parts[1..], sep) == x + Join(parts, sep)
  {
    var glued := [x + parts[0]] + parts[1..];
    if |parts| > 1 {
      assert glued[1..] == parts[1..];
    }
  }

  /** Joining the pieces of a split with the same separator gives back the
      original string. */
  lemma {:induction false} JoinSplit(s: string, sep: string)
    requires sep != []
    ensures Join(Split(s, sep), sep) == s
    decreases |s|
  {
    if |s| < |sep| {
    } else if s[..|sep|] == sep {
      var rest := Split(s[|sep|..], sep);
      JoinSplit(s[|sep|..], sep);
      assert ([""] + rest)[1..] == rest;
      assert Join([""] + rest, sep) == "" + sep + Join(rest, sep);
      assert s == sep + s[|sep|..];
    } else {
      var rest := Split(s[1..], sep);
      JoinSplit(s[1..], sep);
      JoinGlueFront([s[0]], rest, sep);
      assert [s[0]] + s[1..] == s;
    }
  }

  /** An occurrence past the first character is an occurrence in the rest. */
  lemma OccursAtShift(s: string, sub: string, k: int)
    requires s != [] && k > 0
    ensures OccursAt(s, sub, k) <==> OccursAt(s[1..], sub, k - 1)
  {
    if k <= |s| - |sub| {
      assert s[1..][k - 1..k - 1 + |sub|] == s[k..k + |sub|];
    }
  }

  /** No occurrence of the separator starts inside the first piece. */
  lemma {:induction false} SplitFirstPieceAvoidsSeparator(s: string, sep: string)
    requires sep != []
    ensures var r := Split(s, sep);
      forall k :: 0 <= k < |r[0]| ==> !OccursAt(s, sep, k)
    decreases |s|
  {
    if |s| >= |sep| && s[..|sep|] != sep {
      var r := Split(s, sep);
      var rest := Split(s[1..], sep);
      SplitFirstPieceAvoidsSeparator(s[1..], sep);
      assert r[0] == [s[0]] + rest[0];
      forall k | 0 < k < |r[0]|
        ensures !OccursAt(s, sep, k)
      {
        OccursAtShift(s, sep, k);
      }
    }
  }

  /** A split with one piece returns the text itself; with more pieces, an
      occurrence starts right after the first piece, and the remaining
      pieces are the split of what follows it. */
  lemma {:induction false} SplitRestFollowsFirstCut(s: string, sep: string)
    requires sep != []
    ensures var r := Split(s, sep);
      && (|r| == 1 ==> r[0] == s)
      && (|r| > 1 ==> OccursAt(s, sep, |r[0]|) && r[1..] == Split(s[|r[0]| + |sep|..], sep))
    decreases |s|
  {
    if |s| < |sep| {
    } else if s[..|sep|] == sep {
      assert OccursAt(s, sep, 0);
    } else {
      var r := Split(s, sep);
      var rest := Split(s[1..], sep);
      SplitRestFollowsFirstCut(s[1..], sep);
      assert r[0] == [s[0]] + rest[0] && r[1..] == rest[1..];
      if |r| == 1 {
        assert [s[0]] + s[1..] == s;
      } else {
        OccursAtShift(s, sep, |r[0]|);
        assert s[|r[0]| + |sep|..] == s[1..][|rest[0]| + |sep|..];
      }
    }
  }

  /** The first cut of a split is made at the leftmost occurrence of the
      separator: none starts inside the first piece, one starts right after
      it when there are more pieces, and the remaining pieces are the split
      of what follows that occurrence. With one piece, the piece is `s`. */
  lemma SplitFirstCutIsLeftmost(s: string, sep: string)
    requires sep != []
    ensures var r := Split(s, sep);
      && (forall k :: 0 <= k < |r[0]| ==> !OccursAt(s, sep, k))
      && (|r| == 1 ==> r[0] == s)
      && (|r| > 1 ==> OccursAt(s, sep, |r[0]|) && r[1..] == Split(s[|r[0]| + |sep|..], sep))
  {
    SplitFirstPieceAvoidsSeparator(s, sep);
    SplitRestFollowsFirstCut(s, sep);
  }

  /** Every cut of a split is made at the leftmost occurrence of the
      separator in what is left: no occurrence starts inside any piece of
      the text from that piece on. */
  lemma {:induction false} SplitCutsLeftmost(s: string, sep: string)
    requires sep != []
    ensures var r := Split(s, sep);
      forall i, k :: 0 <= i < |r| && 0 <= k < |r[i]| ==> !OccursAt(Join(r[i..], sep), sep, k)
    decreases |s|
  {
    var r := Split(s, sep);
    SplitFirstCutIsLeftmost(s, sep);
    JoinSplit(s, sep);
    assert r[0..] == r;
    if |r| > 1 {
      var t := s[|r[0]| + |sep|..];
      var rt := Split(t, sep);
      SplitCutsLeftmost(t, sep);
      forall i, k | 1 <= i < |r| && 0 <= k < |r[i]|
        ensures !OccursAt(Join(r[i..], sep), sep, k)
      {
        assert r[i..] == rt[i - 1..];
        assert r[i] == rt[i - 1];
      }
    }
  }

  /** No piece of a split contains the separator. */
  lemma {:induction false} SplitPiecesAvoidSeparator(s: string, sep: string)
    requires sep != []
    ensures forall p :: p in Split(s, sep) ==> !Contains(p, sep)
    decreases |s|
  {
    if |s| < |sep| {
    } else if s[..|sep|] == sep {
      SplitPiecesAvoidSeparator(s[|sep|..], sep);
    } else {
      var rest := Split(s[1..], sep);
      SplitPiecesAvoidSeparator(s[1..], sep);
      var first := [s[0]] + rest[0];
      assert rest[0] in rest;
      forall k | 0 <= k <= |first| - |sep|
        ensures !OccursAt(first, sep, k)
      {
        if k == 0 {
          assert first[k..k + |sep|] == s[..|sep|];
        } else {
          assert first[k..k + |sep|] == rest[0][k - 1..k - 1 + |sep|];
          assert !OccursAt(rest[0], sep, k - 1);
        }
      }
    }
  }

  /** A string without the separator character splits into itself alone. */
  lemma {:induction false} SplitWithoutSeparator(s: string, c: char)
    requires c !in s
    ensures Split(s, [c]) == [s]
    decreases |s|
  {
    if |s| >= 1 {
      assert s[..1] == [s[0]];
      SplitWithoutSeparator(s[1..], c);
      assert [s[0]] + s[1..] == s;
    }
  }

  /** Splitting `x + [c] + y`, where `x` has no `c`, yields `x` then the pieces of `y`. */
  lemma {:induction false} SplitAtFirstSeparator(x: string, c: char, y: string)
    requires c !in x
    ensures Split(x + [c] + y, [c]) == [x] + Split(y, [c])
    decreases |x|
  {
    var s := x + [c] + y;
    if x == [] {
      assert s[..1] == [c] && s[1..] == y;
    } else {
      assert s[..1] == [x[0]];
      assert s[1..] == x[1..] + [c] + y;
      SplitAtFirstSeparator(x[1..], c, y);
      assert [x[0]] + x[1..] == x;
    }
  }

  /** Splitting a join on a one-character separator that no part contains
      gives back the parts. */
  lemma {:induction false} SplitJoin(parts: seq<string>, c: char)
    requires |parts| >= 1
    requires forall p :: p in parts ==> c !in p
    ensures Split(Join(parts, [c]), [c]) == parts
    decreases |parts|
  {
    if |parts| == 1 {
      SplitWithoutSeparator(parts[0], c);
    } else {
      SplitJoin(parts[1..], c);
      SplitAtFirstSeparator(parts[0], c, Join(parts[1..], [c]));
      assert [parts[0]] + parts[1..] == parts;
    }
  }

  function DigitChar(d: nat): char
    requires d < 10
  {
    (d + '0' as int) as char
  }

  /** Python's `str(n)` (and `f"{n}"`) for a non-negative integer: decimal
      digits without a leading zero. */
  function DecimalString(n: nat): (r: string)
    ensures |r| >= 1
    ensures forall i :: 0 <= i < |r| ==> '0' <= r[i] <= '9'
    ensures r[0] == '0' ==> n == 0
    decreases n
  {
    if n < 10 then [DigitChar(n)] else DecimalString(n / 10) + [DigitChar(n % 10)]
  }

  /** The number a string of decimal digits denotes. */
  function DecimalValue(s: string): nat
    requires forall i :: 0 <= i < |s| ==> '0' <= s[i] <= '9'
  {
    if s == [] then 0 else 10 * DecimalValue(s[..|s| - 1]) + (s[|s| - 1] as int - '0' as int)
  }

  /** Reading back the decimal form of `n` gives `n`. */
  lemma {:induction false} DecimalRoundTrip(n: nat)
    ensures DecimalValue(DecimalString(n)) == n
    decreases n
  {
    if n >= 10 {
      DecimalRoundTrip(n / 10);
      var r := DecimalString(n);
      assert r[..|r| - 1] == DecimalString(n / 10);
    }
  }
}

/** Text preparation for the knowledge base: the whitespace normalisation of
    `clean_text`, the greedy paragraph packer `chunk_text`, and the
    file-name classifier `infer_metadata` (rag/utils_text.py). */
module UtilsText {
  import opened PyStr

  // ---------------------------------------------------------------------
  // clean_text
  // ---------------------------------------------------------------------

  /** A character of the regular-expression class `[ \t]`. */
  predicate IsBlank(c: char) { c == ' ' || c == '\t' }

  predicate TripleNewlineAt(s: string, i: int)
    requires 0 <= i <= |s| - 3
  {
    s[i] == '\n' && s[i + 1] == '\n' && s[i + 2] == '\n'
  }

  /** `s` has no three consecutive newlines. */
  predicate NoTripleNewline(s: string) {
    forall i :: 0 <= i <= |s| - 3 ==> !TripleNewlineAt(s, i)
  }

  predicate DoubleSpaceAt(s: string, i: int)
    requires 0 <= i <= |s| - 2
  {
    s[i] == ' ' && s[i + 1] == ' '
  }

  /** `s` has no two consecutive spaces. */
  predicate NoDoubleSpace(s: string) {
    forall i :: 0 <= i <= |s| - 2 ==> !DoubleSpaceAt(s, i)
  }

  /** Number of newlines at the start of `s`. */
  function LeadingNewlines(s: string): (n: nat)
    ensures n <= |s|
    ensures forall i :: 0 <= i < n ==> s[i] == '\n'
    ensures n < |s| ==> s[n] != '\n'
  {
    if s == [] || s[0] != '\n' then 0 else 1 + LeadingNewlines(s[1..])
  }

  /** Number of spaces and tabs at the start of `s`. */
  function LeadingBlanks(s: string): (n: nat)
    ensures n <= |s|
    ensures forall i :: 0 <= i < n ==> IsBlank(s[i])
    ensures n < |s| ==> !IsBlank(s[n])
  {
    if s == [] || !IsBlank(s[0]) then 0 else 1 + LeadingBlanks(s[1..])
  }

  /** `re.sub(r"\n{3,}", "\n\n", s)`: the regular expression is tried at each
      position from left to right and matches greedily, so every maximal run
      of three or more newlines becomes exactly two and shorter runs stay.
      The only character it writes is the newline. */
  function CollapseNewlines(s: string): (r: string)
    ensures |r| <= |s|
    ensures (r == []) == (s == [])
    ensures s != [] ==> (r[0] == '\n' <==> s[0] == '\n')
    ensures forall c :: c in r && c != '\n' ==> c in s
    decreases |s|
  {
    if s == [] then []
    else if s[0] != '\n' then [s[0]] + CollapseNewlines(s[1..])
    else
      var k := LeadingNewlines(s);
      (if k >= 3 then "\n\n" else s[..k]) + CollapseNewlines(s[k..])
  }

  /** `re.sub(r"[ \t]+", " ", s)`: every maximal run of spaces and tabs
      becomes one space. No tab survives, the only character it writes is the
      space, and a string starts with a space afterwards exactly when it
      started with a blank before. */
  function CollapseBlanks(s: string): (r: string)
    ensures |r| <= |s|
    ensures (r == []) == (s == [])
    ensures s != [] ==> (r[0] == ' ' <==> IsBlank(s[0]))
    ensures s != [] && !IsBlank(s[0]) ==> r[0] == s[0]
    ensures forall c :: c in r && c != ' ' ==> c in s
    ensures '\t' !in r
    decreases |s|
  {
    if s == [] then []
    else if IsBlank(s[0]) then
      var k := LeadingBlanks(s);
      " " + CollapseBlanks(s[k..])
    else [s[0]] + CollapseBlanks(s[1..])
  }

  /** The four rewrites of `clean_text` that every input goes through:
      carriage returns become newlines, long newline runs shrink to a blank
      line, runs of spaces and tabs shrink to one space, and the ends are
      stripped. */
  function NormalizeWhitespace(text: string): string {
    Strip(CollapseBlanks(CollapseNewlines(ReplaceChar(text, '\r', '\n'))))
  }

  /** What `clean_text` guarantees of its result. */
  predicate IsClean(s: string) {
    && '\r' !in s
    && '\t' !in s
    && NoDoubleSpace(s)
    && NoTripleNewline(s)
    && IsStripped(s)
  }

  /** The test of `clean_text` for HTML input: `"<html" in text.lower()`. */
  predicate HasHtmlMarker(text: string) {
    Contains(Lower(text), "<html")
  }

  /** `clean_text(text)`. The HTML parser that extracts the text of an HTML
      document is the parameter `htmlToText`; whatever it returns goes through
      the same rewrites, so the result is clean in every case. */
  function CleanText(text: string, htmlToText: string -> string): (r: string)
    ensures IsClean(r)
    ensures !HasHtmlMarker(text) ==> r == NormalizeWhitespace(text)
  {
    var plain := if HasHtmlMarker(text) then htmlToText(text) else text;
    NormalizeWhitespaceIsClean(plain);
    NormalizeWhitespace(plain)
  }

  lemma NoTripleAfterNonNewline(c: char, s: string)
    requires c != '\n' && NoTripleNewline(s)
    ensures NoTripleNewline([c] + s)
  {
    var r := [c] + s;
    forall i | 1 <= i <= |r| - 3
      ensures !TripleNewlineAt(r, i)
    {
      assert r[i..i + 3] == s[i - 1..i + 2];
      assert !TripleNewlineAt(s, i - 1);
    }
  }

  lemma NoTripleAfterShortRun(run: string, s: string)
    requires 1 <= |run| <= 2 && forall i :: 0 <= i < |run| ==> run[i] == '\n'
    requires s == [] || s[0] != '\n'
    requires NoTripleNewline(s)
    ensures NoTripleNewline(run + s)
  {
    var r := run + s;
    forall i | 0 <= i <= |r| - 3
      ensures !TripleNewlineAt(r, i)
    {
      if i >= |run| {
        assert r[i..i + 3] == s[i - |run|..i - |run| + 3];
        assert !TripleNewlineAt(s, i - |run|);
      } else {
        assert r[|run|] == s[0];
      }
    }
  }

  lemma NoTripleInfix(s: string, i: int, j: int)
    requires 0 <= i <= j <= |s| && NoTripleNewline(s)
    ensures NoTripleNewline(s[i..j])
    ensures j == |s| ==> NoTripleNewline(s[i..])
  {
    assert j == |s| ==> s[i..j] == s[i..];
    var t := s[i..j];
    forall k | 0 <= k <= |t| - 3
      ensures !TripleNewlineAt(t, k)
    {
      assert t[k] == s[i + k] && t[k + 1] == s[i + k + 1] && t[k + 2] == s[i + k + 2];
      assert !TripleNewlineAt(s, i + k);
    }
  }

  lemma NoDoubleSpaceInfix(s: string, i: int, j: int)
    requires 0 <= i <= j <= |s| && NoDoubleSpace(s)
    ensures NoDoubleSpace(s[i..j])
    ensures j == |s| ==> NoDoubleSpace(s[i..])
  {
    assert j == |s| ==> s[i..j] == s[i..];
    var t := s[i..j];
    forall k | 0 <= k <= |t| - 2
      ensures !DoubleSpaceAt(t, k)
    {
      assert t[k] == s[i + k] && t[k + 1] == s[i + k + 1];
      assert !DoubleSpaceAt(s, i + k);
    }
  }

  /** After the newline rewrite no three newlines follow each other. */
  lemma {:induction false} CollapseNewlinesLeavesNoTriple(s: string)
    ensures NoTripleNewline(CollapseNewlines(s))
    decreases |s|
  {
    if s == [] {
    } else if s[0] != '\n' {
      CollapseNewlinesLeavesNoTriple(s[1..]);
      NoTripleAfterNonNewline(s[0], CollapseNewlines(s[1..]));
    } else {
      var k := LeadingNewlines(s);
      CollapseNewlinesLeavesNoTriple(s[k..]);
      NoTripleAfterShortRun(if k >= 3 then "\n\n" else s[..k], CollapseNewlines(s[k..]));
    }
  }

  /** The newline rewrite changes nothing in a text without three consecutive newlines. */
  lemma {:induction false} CollapseNewlinesKeepsSettled(s: string)
    requires NoTripleNewline(s)
    ensures CollapseNewlines(s) == s
    decreases |s|
  {
    if s == [] {
    } else if s[0] != '\n' {
      NoTripleInfix(s, 1, |s|);
      CollapseNewlinesKeepsSettled(s[1..]);
      assert [s[0]] + s[1..] == s;
    } else {
      var k := LeadingNewlines(s);
      if |s| >= 3 {
        assert !TripleNewlineAt(s, 0);
      }
      NoTripleInfix(s, k, |s|);
      CollapseNewlinesKeepsSettled(s[k..]);
      assert s[..k] + s[k..] == s;
    }
  }

  /** After the blank rewrite no two spaces follow each other. */
  lemma {:induction false} CollapseBlanksLeavesNoDoubleSpace(s: string)
    ensures NoDoubleSpace(CollapseBlanks(s))
    decreases |s|
  {
    if s == [] {
    } else {
      var k := if IsBlank(s[0]) then LeadingBlanks(s) else 1;
      var rest := CollapseBlanks(s[k..]);
      CollapseBlanksLeavesNoDoubleSpace(s[k..]);
      var r := CollapseBlanks(s);
      assert r == [r[0]] + rest;
      forall i | 0 <= i <= |r| - 2
        ensures !DoubleSpaceAt(r, i)
      {
        if i == 0 {
          if IsBlank(s[0]) && rest != [] {
            assert !IsBlank(s[k..][0]);
          }
        } else {
          assert r[i..i + 2] == rest[i - 1..i + 1];
          assert !DoubleSpaceAt(rest, i - 1);
        }
      }
    }
  }

  /** The blank rewrite never creates three consecutive newlines: it maps
      every character other than a space or tab to itself and every run of
      them to one space. */
  lemma {:induction false} CollapseBlanksKeepsNoTriple(s: string)
    requires NoTripleNewline(s)
    ensures NoTripleNewline(CollapseBlanks(s))
    decreases |s|
  {
    if s == [] {
    } else if IsBlank(s[0]) {
      var k := LeadingBlanks(s);
      NoTripleInfix(s, k, |s|);
      CollapseBlanksKeepsNoTriple(s[k..]);
      NoTripleAfterNonNewline(' ', CollapseBlanks(s[k..]));
    } else {
      NoTripleInfix(s, 1, |s|);
      CollapseBlanksKeepsNoTriple(s[1..]);
      var rest := CollapseBlanks(s[1..]);
      var r := CollapseBlanks(s);
      assert r == [s[0]] + rest;
      forall i | 0 <= i <= |r| - 3
        ensures !TripleNewlineAt(r, i)
      {
        if i == 0 {
          if s[0] == '\n' && rest[0] == '\n' {
            // rest[0] is a newline, so it is s[1] itself and rest continues with CollapseBlanks(s[2..])
            assert s[1] == '\n' && !IsBlank(s[1]);
            assert rest == [s[1]] + CollapseBlanks(s[2..]);
            assert s[1..][1..] == s[2..];
            assert |s| >= 3 && !TripleNewlineAt(s, 0);
            assert s[2..][0] == s[2] != '\n';
          }
        } else {
          assert r[i..i + 3] == rest[i - 1..i + 2];
          assert !TripleNewlineAt(rest, i - 1);
        }
      }
    }
  }

  /** The blank rewrite changes nothing in a text without tabs or double spaces. */
  lemma {:induction false} CollapseBlanksKeepsSettled(s: string)
    requires '\t' !in s && NoDoubleSpace(s)
    ensures CollapseBlanks(s) == s
    decreases |s|
  {
    if s != [] {
      NoDoubleSpaceInfix(s, 1, |s|);
      CollapseBlanksKeepsSettled(s[1..]);
      if IsBlank(s[0]) {
        assert s[0] == ' ';
        if |s| > 1 {
          assert !DoubleSpaceAt(s, 0);
          assert s[1] in s;
        }
        assert LeadingBlanks(s) == 1;
      }
      assert [s[0]] + s[1..] == s;
    }
  }

  lemma Regroup(p: string, a: string, b: string)
    ensures p + (a + b) == (p + a) + b
  {
  }

  /** One step of the newline rewrite at a character other than a newline. */
  lemma CollapseNewlinesAtChar(s: string)
    requires s != [] && s[0] != '\n'
    ensures CollapseNewlines(s) == [s[0]] + CollapseNewlines(s[1..])
  {
  }

  /** One step of the blank rewrite at a character other than a space or tab. */
  lemma CollapseBlanksAtChar(s: string)
    requires s != [] && !IsBlank(s[0])
    ensures CollapseBlanks(s) == [s[0]] + CollapseBlanks(s[1..])
  {
  }

  /** One step of the newline rewrite at a leading run of newlines. */
  lemma CollapseNewlinesAtRun(s: string)
    requires s != [] && s[0] == '\n'
    ensures var k := LeadingNewlines(s);
      CollapseNewlines(s) == (if k >= 3 then "\n\n" else s[..k]) + CollapseNewlines(s[k..])
  {
  }

  /** One step of the blank rewrite at a leading run of spaces and tabs. */
  lemma CollapseBlanksAtRun(s: string)
    requires s != [] && IsBlank(s[0])
    ensures CollapseBlanks(s) == " " + CollapseBlanks(s[LeadingBlanks(s)..])
  {
  }

  /** Cutting `k` characters off `x + z`, for `k` within `x`, cuts them off `x`. */
  lemma DropFromConcat(x: string, z: string, k: nat)
    requires k <= |x|
    ensures (x + z)[..k] == x[..k] && (x + z)[k..] == x[k..] + z
  {
  }

  /** A text that starts with a character other than a newline ends the
      newline run at the start of whatever comes before it. */
  lemma {:induction false} LeadingNewlinesBeforeStop(x: string, z: string)
    requires z != [] && z[0] != '\n'
    ensures LeadingNewlines(x + z) == LeadingNewlines(x)
    decreases |x|
  {
    if x == [] {
      assert x + z == z;
    } else if x[0] == '\n' {
      assert (x + z)[1..] == x[1..] + z;
      LeadingNewlinesBeforeStop(x[1..], z);
    }
  }

  /** The step of CollapseNewlinesSplitsBefore past a character other than a newline. */
  lemma CollapseNewlinesSplitsAfterChar(x: string, z: string)
    requires x != [] && x[0] != '\n'
    requires CollapseNewlines(x[1..] + z) == CollapseNewlines(x[1..]) + CollapseNewlines(z)
    ensures CollapseNewlines(x + z) == CollapseNewlines(x) + CollapseNewlines(z)
  {
    DropFromConcat(x, z, 1);
    CollapseNewlinesAtChar(x + z);
    CollapseNewlinesAtChar(x);
    Regroup([x[0]], CollapseNewlines(x[1..]), CollapseNewlines(z));
  }

  /** The step of CollapseNewlinesSplitsBefore past a leading run of newlines. */
  lemma CollapseNewlinesSplitsAfterRun(x: string, z: string)
    requires x != [] && x[0] == '\n' && z != [] && z[0] != '\n'
    requires var k := LeadingNewlines(x);
      CollapseNewlines(x[k..] + z) == CollapseNewlines(x[k..]) + CollapseNewlines(z)
    ensures CollapseNewlines(x + z) == CollapseNewlines(x) + CollapseNewlines(z)
  {
    var k := LeadingNewlines(x);
    LeadingNewlinesBeforeStop(x, z);
    DropFromConcat(x, z, k);
    CollapseNewlinesAtRun(x + z);
    CollapseNewlinesAtRun(x);
    Regroup(if k >= 3 then "\n\n" else x[..k], CollapseNewlines(x[k..]), CollapseNewlines(z));
  }

  /** In front of a text that starts with a character other than a newline,
      the newline rewrite acts on each side separately. */
  lemma {:induction false} CollapseNewlinesSplitsBefore(x: string, z: string)
    requires z != [] && z[0] != '\n'
    ensures CollapseNewlines(x + z) == CollapseNewlines(x) + CollapseNewlines(z)
    decreases |x|
  {
    if x == [] {
      assert x + z == z;
    } else if x[0] != '\n' {
      CollapseNewlinesSplitsBefore(x[1..], z);
      CollapseNewlinesSplitsAfterChar(x, z);
    } else {
      CollapseNewlinesSplitsBefore(x[LeadingNewlines(x)..], z);
      CollapseNewlinesSplitsAfterRun(x, z);
    }
  }

  /** The newline rewrite works run by run: a character other than a newline
      separates what it does before that character from what it does after. */
  lemma CollapseNewlinesSplitsAt(x: string, c: char, y: string)
    requires c != '\n'
    ensures CollapseNewlines(x + [c] + y) == CollapseNewlines(x) + [c] + CollapseNewlines(y)
  {
    var z := [c] + y;
    assert x + [c] + y == x + z;
    CollapseNewlinesSplitsBefore(x, z);
    assert z[1..] == y;
  }

  /** A run of `k` newlines becomes `min(k, 2)` newlines: a blank line
      survives, longer gaps shrink to one blank line. */
  lemma CollapseNewlinesOnRun(s: string)
    requires forall i :: 0 <= i < |s| ==> s[i] == '\n'
    ensures CollapseNewlines(s) == s[..Min(|s|, 2)]
  {
    if s != [] {
      assert LeadingNewlines(s) == |s|;
      assert s[|s|..] == [];
    }
  }

  /** A text that starts with a character other than a space or tab ends the
      blank run at the start of whatever comes before it. */
  lemma {:induction false} LeadingBlanksBeforeStop(x: string, z: string)
    requires z != [] && !IsBlank(z[0])
    ensures LeadingBlanks(x + z) == LeadingBlanks(x)
    decreases |x|
  {
    if x == [] {
      assert x + z == z;
    } else if IsBlank(x[0]) {
      assert (x + z)[1..] == x[1..] + z;
      LeadingBlanksBeforeStop(x[1..], z);
    }
  }

  /** The step of CollapseBlanksSplitsBefore past a character other than a space or tab. */
  lemma CollapseBlanksSplitsAfterChar(x: string, z: string)
    requires x != [] && !IsBlank(x[0])
    requires CollapseBlanks(x[1..] + z) == CollapseBlanks(x[1..]) + CollapseBlanks(z)
    ensures CollapseBlanks(x + z) == CollapseBlanks(x) + CollapseBlanks(z)
  {
    DropFromConcat(x, z, 1);
    CollapseBlanksAtChar(x + z);
    CollapseBlanksAtChar(x);
    Regroup([x[0]], CollapseBlanks(x[1..]), CollapseBlanks(z));
  }

  /** The step of CollapseBlanksSplitsBefore past a leading run of spaces and tabs. */
  lemma CollapseBlanksSplitsAfterRun(x: string, z: string)
    requires x != [] && IsBlank(x[0]) && z != [] && !IsBlank(z[0])
    requires var k := LeadingBlanks(x);
      CollapseBlanks(x[k..] + z) == CollapseBlanks(x[k..]) + CollapseBlanks(z)
    ensures CollapseBlanks(x + z) == CollapseBlanks(x) + CollapseBlanks(z)
  {
    var k := LeadingBlanks(x);
    LeadingBlanksBeforeStop(x, z);
    DropFromConcat(x, z, k);
    CollapseBlanksAtRun(x + z);
    CollapseBlanksAtRun(x);
    Regroup(" ", CollapseBlanks(x[k..]), CollapseBlanks(z));
  }

  /** In front of a text that starts with a character other than a space or
      tab, the blank rewrite acts on each side separately. */
  lemma {:induction false} CollapseBlanksSplitsBefore(x: string, z: string)
    requires z != [] && !IsBlank(z[0])
    ensures CollapseBlanks(x + z) == CollapseBlanks(x) + CollapseBlanks(z)
    decreases |x|
  {
    if x == [] {
      assert x + z == z;
    } else if !IsBlank(x[0]) {
      CollapseBlanksSplitsBefore(x[1..], z);
      CollapseBlanksSplitsAfterChar(x, z);
    } else {
      CollapseBlanksSplitsBefore(x[LeadingBlanks(x)..], z);
      CollapseBlanksSplitsAfterRun(x, z);
    }
  }

  /** The blank rewrite works run by run: a character other than a space or
      tab separates what it does before that character from what it does after. */
  lemma CollapseBlanksSplitsAt(x: string, c: char, y: string)
    requires !IsBlank(c)
    ensures CollapseBlanks(x + [c] + y) == CollapseBlanks(x) + [c] + CollapseBlanks(y)
  {
    var z := [c] + y;
    assert x + [c] + y == x + z;
    CollapseBlanksSplitsBefore(x, z);
    assert z[1..] == y;
  }

  /** A non-empty run of spaces and tabs becomes a single space, so words
      stay separated. */
  lemma CollapseBlanksOnRun(s: string)
    requires s != [] && forall i :: 0 <= i < |s| ==> IsBlank(s[i])
    ensures CollapseBlanks(s) == " "
  {
    assert LeadingBlanks(s) == |s|;
    assert s[|s|..] == [];
  }

  /** A text without carriage returns, tabs, double spaces or triple
      newlines is clean once stripped. */
  lemma StripSettledIsClean(s: string)
    requires '\r' !in s && '\t' !in s && NoDoubleSpace(s) && NoTripleNewline(s)
    ensures IsClean(Strip(s))
  {
    var r := Strip(s);
    var a := LeadingSpace(s);
    assert r == s[a..a + |r|];
    NoTripleInfix(s, a, a + |r|);
    NoDoubleSpaceInfix(s, a, a + |r|);
  }

  /** The three rewrites before the strip settle the text. */
  lemma CollapsedIsSettled(text: string)
    ensures var s := CollapseBlanks(CollapseNewlines(ReplaceChar(text, '\r', '\n')));
      '\r' !in s && '\t' !in s && NoDoubleSpace(s) && NoTripleNewline(s)
  {
    var s1 := ReplaceChar(text, '\r', '\n');
    var s2 := CollapseNewlines(s1);
    CollapseNewlinesLeavesNoTriple(s1);
    CollapseBlanksKeepsNoTriple(s2);
    CollapseBlanksLeavesNoDoubleSpace(s2);
    assert '\r' !in s2;
  }

  /** The rewrites of `clean_text` always leave clean text. */
  lemma NormalizeWhitespaceIsClean(text: string)
    ensures IsClean(NormalizeWhitespace(text))
  {
    CollapsedIsSettled(text);
    StripSettledIsClean(CollapseBlanks(CollapseNewlines(ReplaceChar(text, '\r', '\n'))));
  }

  /** Clean text is a fixed point of the rewrites. */
  lemma NormalizeWhitespaceKeepsClean(s: string)
    requires IsClean(s)
    ensures NormalizeWhitespace(s) == s
  {
    CollapseNewlinesKeepsSettled(s);
    CollapseBlanksKeepsSettled(s);
    StripKeepsStripped(s);
  }

  /** Normalising twice is normalising once. */
  lemma NormalizeWhitespaceIdempotent(text: string)
    ensures NormalizeWhitespace(NormalizeWhitespace(text)) == NormalizeWhitespace(text)
  {
    NormalizeWhitespaceIsClean(text);
    NormalizeWhitespaceKeepsClean(NormalizeWhitespace(text));
  }

  /** Cleaning a cleaned text again changes nothing, provided the cleaned
      text does not itself look like HTML (so that the second call takes the
      same plain-text path). */
  lemma CleanTextIdempotent(text: string, htmlToText: string -> string)
    requires !HasHtmlMarker(CleanText(text, htmlToText))
    ensures CleanText(CleanText(text, htmlToText), htmlToText) == CleanText(text, htmlToText)
  {
    NormalizeWhitespaceKeepsClean(CleanText(text, htmlToText));
  }

  // ---------------------------------------------------------------------
  // chunk_text
  // ---------------------------------------------------------------------

  /** The separator `chunk_text` splits on and glues paragraphs back with. */
  const ParagraphBreak: string := "\n\n"

  /** What the loop of `chunk_text` threads from one paragraph to the next:
      the chunks emitted so far and the accumulator `current`. */
  datatype Packer = Packer(chunks: seq<string>, current: string)

  /** One iteration of the loop: the paragraph is merged into the accumulator
      when `len(current) + len(para) < max_chars`; otherwise the stripped
      accumulator is emitted and the next one starts with its last `overlap`
      characters. Either way the accumulator ends with the paragraph. */
  function Pack(st: Packer, para: string, maxChars: int, overlap: int): (r: Packer)
    ensures st.chunks <= r.chunks && |r.chunks| <= |st.chunks| + 1
    ensures EndsWith(r.current, ParagraphBreak + para)
    ensures |r.chunks| == |st.chunks| <==> |st.current| + |para| < maxChars
    ensures |r.chunks| == |st.chunks| ==> |r.current| < maxChars + |ParagraphBreak|
    ensures |r.chunks| == |st.chunks| + 1 ==>
      && r.chunks[|st.chunks|] == Strip(st.current)
      && r.current == Tail(st.current, overlap) + ParagraphBreak + para
  {
    if |st.current| + |para| < maxChars then
      Packer(st.chunks, st.current + ParagraphBreak + para)
    else
      Packer(st.chunks + [Strip(st.current)], Tail(st.current, overlap) + ParagraphBreak + para)
  }

  /** The loop over all paragraphs, from the given state. Chunks are only
      ever appended, and once a paragraph has been seen the accumulator ends
      with the last one. */
  function PackAll(st: Packer, paras: seq<string>, maxChars: int, overlap: int): (r: Packer)
    ensures st.chunks <= r.chunks
    ensures paras != [] ==> EndsWith(r.current, ParagraphBreak + paras[|paras| - 1])
    decreases |paras|
  {
    if paras == [] then st
    else PackAll(Pack(st, paras[0], maxChars, overlap), paras[1..], maxChars, overlap)
  }

  /** The final `if current: chunks.append(current.strip())`. */
  function Flush(st: Packer): (r: seq<string>)
    ensures st.chunks <= r
  {
    if st.current != "" then st.chunks + [Strip(st.current)] else st.chunks
  }

  /** The list `chunk_text(text, max_chars, overlap)` returns. */
  function Chunks(text: string, maxChars: int, overlap: int): seq<string> {
    Flush(PackAll(Packer([], ""), Split(text, ParagraphBreak), maxChars, overlap))
  }

  /** `chunk_text(text, max_chars=1200, overlap=200)`: split the text into
      paragraphs and pack them greedily into chunks. */
  method ChunkText(text: string, maxChars: int := 1200, overlap: int := 200) returns (chunks: seq<string>)
    ensures chunks == Chunks(text, maxChars, overlap)
    ensures |chunks| >= 1
  {
    var paragraphs := Split(text, ParagraphBreak);
    chunks := [];
    var current := "";
    for i := 0 to |paragraphs|
      invariant PackAll(Packer(chunks, current), paragraphs[i..], maxChars, overlap)
             == PackAll(Packer([], ""), paragraphs, maxChars, overlap)
    {
      var para := paragraphs[i];
      if |current| + |para| < maxChars {
        current := current + ParagraphBreak + para;
      } else {
        chunks := chunks + [Strip(current)];
        current := Tail(current, overlap) + ParagraphBreak + para;
      }
      assert paragraphs[i..][1..] == paragraphs[i + 1..];
    }
    if current != "" {
      chunks := chunks + [Strip(current)];
    }
    AtLeastOneChunk(text, maxChars, overlap);
  }

  /** `chunk_text` always returns at least one chunk: there is always at
      least one paragraph, so the accumulator is not empty at the end and is
      flushed. */
  lemma AtLeastOneChunk(text: string, maxChars: int, overlap: int)
    ensures |Chunks(text, maxChars, overlap)| >= 1
  {
    var st := PackAll(Packer([], ""), Split(text, ParagraphBreak), maxChars, overlap);
    assert EndsWith(st.current, ParagraphBreak + Split(text, ParagraphBreak)[|Split(text, ParagraphBreak)| - 1]);
  }

  /** When the first paragraph alone reaches `max_chars`, the empty
      accumulator is flushed before it, so the first chunk is empty. */
  lemma FirstChunkEmptyWhenFirstParagraphIsLong(text: string, maxChars: int, overlap: int)
    requires |Split(text, ParagraphBreak)[0]| >= maxChars
    ensures Chunks(text, maxChars, overlap)[0] == ""
  {
    var paras := Split(text, ParagraphBreak);
    var first := Pack(Packer([], ""), paras[0], maxChars, overlap);
    assert first.chunks == [""];
    var last := PackAll(first, paras[1..], maxChars, overlap);
    assert PackAll(Packer([], ""), paras, maxChars, overlap) == last;
    assert [""] <= last.chunks <= Flush(last);
  }

  /** While everything fits, every paragraph is merged: the accumulator
      becomes the old one, a paragraph break, and the paragraphs joined by
      paragraph breaks. */
  lemma {:induction false} MergeAll(st: Packer, paras: seq<string>, maxChars: int, overlap: int)
    requires paras != []
    requires |st.current| + |Join(paras, ParagraphBreak)| < maxChars
    ensures PackAll(st, paras, maxChars, overlap)
         == Packer(st.chunks, st.current + ParagraphBreak + Join(paras, ParagraphBreak))
    decreases |paras|
  {
    var next := Pack(st, paras[0], maxChars, overlap);
    if |paras| == 1 {
      assert paras[1..] == [];
    } else {
      assert Join(paras, ParagraphBreak) == paras[0] + ParagraphBreak + Join(paras[1..], ParagraphBreak);
      assert next.current == st.current + ParagraphBreak + paras[0];
      MergeAll(next, paras[1..], maxChars, overlap);
    }
  }

  /** Stripping ignores a leading whitespace character. */
  lemma StripSkipsLeadingSpace(c: char, s: string)
    requires IsSpace(c)
    ensures Strip([c] + s) == Strip(s)
  {
    var t := [c] + s;
    assert t[1..] == s;
    assert LeadingSpace(t) == 1 + LeadingSpace(s);
    assert t[LeadingSpace(t)..] == s[LeadingSpace(s)..];
  }

  /** A text shorter than `max_chars` is one chunk: the stripped text itself. */
  lemma ShortTextIsOneChunk(text: string, maxChars: int, overlap: int)
    requires |text| < maxChars
    ensures Chunks(text, maxChars, overlap) == [Strip(text)]
  {
    var paras := Split(text, ParagraphBreak);
    JoinSplit(text, ParagraphBreak);
    MergeAll(Packer([], ""), paras, maxChars, overlap);
    var cur := "" + ParagraphBreak + Join(paras, ParagraphBreak);
    assert PackAll(Packer([], ""), paras, maxChars, overlap) == Packer([], cur);
    assert Chunks(text, maxChars, overlap) == [Strip(cur)];
    StripSkipsParagraphBreak(text);
  }

  lemma StripSkipsParagraphBreak(text: string)
    ensures Strip("" + ParagraphBreak + text) == Strip(text)
  {
    assert "" + ParagraphBreak + text == ['\n'] + (['\n'] + text);
    StripSkipsLeadingSpace('\n', ['\n'] + text);
    StripSkipsLeadingSpace('\n', text);
  }

  /** Some chunk contains `t`. */
  ghost predicate InSomeChunk(t: string, chunks: seq<string>) {
    exists c :: c in chunks && Contains(c, t)
  }

  /** `t` is in an emitted chunk or in the accumulator. */
  ghost predicate Kept(t: string, st: Packer) {
    InSomeChunk(t, st.chunks) || Contains(st.current, t)
  }

  lemma ContainsInLonger(s: string, more: string, t: string)
    requires Contains(s, t)
    ensures Contains(s + more, t)
  {
    var k :| 0 <= k <= |s| - |t| && OccursAt(s, t, k);
    assert (s + more)[k..k + |t|] == s[k..k + |t|];
    assert OccursAt(s + more, t, k);
  }

  /** A string ending with `para` contains `para` stripped. */
  lemma EndingContainsStripped(cur: string, para: string)
    requires EndsWith(cur, para)
    ensures Contains(cur, Strip(para))
  {
    var t := Strip(para);
    var a := LeadingSpace(para);
    var at := |cur| - |para| + a;
    assert cur[|cur| - |para|..] == para;
    assert cur[at..at + |t|] == para[a..a + |t|];
    assert OccursAt(cur, t, at);
  }

  /** The stripped paragraph is in the accumulator right after the paragraph is packed. */
  lemma PackKeepsParagraph(st: Packer, para: string, maxChars: int, overlap: int)
    ensures Kept(Strip(para), Pack(st, para, maxChars, overlap))
  {
    var cur := Pack(st, para, maxChars, overlap).current;
    assert EndsWith(cur, ParagraphBreak + para);
    assert cur[|cur| - |para|..] == (ParagraphBreak + para)[|ParagraphBreak|..] == para;
    EndingContainsStripped(cur, para);
  }

  /** Packing one more paragraph loses nothing already kept. */
  lemma PackKeepsKept(st: Packer, para: string, maxChars: int, overlap: int, t: string)
    requires IsStripped(t) && Kept(t, st)
    ensures Kept(t, Pack(st, para, maxChars, overlap))
  {
    var r := Pack(st, para, maxChars, overlap);
    if InSomeChunk(t, st.chunks) {
      var c :| c in st.chunks && Contains(c, t);
      assert c in r.chunks;
    } else if |st.current| + |para| < maxChars {
      ContainsInLonger(st.current, ParagraphBreak + para, t);
      assert r.current == st.current + (ParagraphBreak + para);
    } else {
      StripKeepsStrippedInfix(st.current, t);
      assert Strip(st.current) in r.chunks;
    }
  }

  lemma {:induction false} PackAllKeepsKept(st: Packer, paras: seq<string>, maxChars: int, overlap: int, t: string)
    requires IsStripped(t) && Kept(t, st)
    ensures Kept(t, PackAll(st, paras, maxChars, overlap))
    decreases |paras|
  {
    if paras != [] {
      PackKeepsKept(st, paras[0], maxChars, overlap, t);
      PackAllKeepsKept(Pack(st, paras[0], maxChars, overlap), paras[1..], maxChars, overlap, t);
    }
  }

  /** After the loop, every stripped paragraph is in a chunk or in the accumulator. */
  lemma {:induction false} PackAllKeepsEveryParagraph(st: Packer, paras: seq<string>, maxChars: int, overlap: int)
    ensures forall i :: 0 <= i < |paras| ==> Kept(Strip(paras[i]), PackAll(st, paras, maxChars, overlap))
    decreases |paras|
  {
    if paras != [] {
      var next := Pack(st, paras[0], maxChars, overlap);
      PackAllKeepsEveryParagraph(next, paras[1..], maxChars, overlap);
      PackKeepsParagraph(st, paras[0], maxChars, overlap);
      PackAllKeepsKept(next, paras[1..], maxChars, overlap, Strip(paras[0]));
      forall i | 1 <= i < |paras|
        ensures Kept(Strip(paras[i]), PackAll(st, paras, maxChars, overlap))
      {
        assert paras[i] == paras[1..][i - 1];
      }
    }
  }

  /** No paragraph is dropped: each paragraph, stripped, lies whole inside
      some chunk. (Stripping is needed because a chunk is stripped when it is
      emitted, which can cut whitespace at the paragraph's ends.) */
  lemma NoParagraphDropped(text: string, maxChars: int, overlap: int)
    ensures forall p :: p in Split(text, ParagraphBreak) ==> InSomeChunk(Strip(p), Chunks(text, maxChars, overlap))
  {
    var paras := Split(text, ParagraphBreak);
    var st := PackAll(Packer([], ""), paras, maxChars, overlap);
    PackAllKeepsEveryParagraph(Packer([], ""), paras, maxChars, overlap);
    assert st.current != "";
    var chunks := Flush(st);
    assert chunks == st.chunks + [Strip(st.current)];
    forall p | p in paras
      ensures InSomeChunk(Strip(p), chunks)
    {
      var i :| 0 <= i < |paras| && paras[i] == p;
      assert Kept(Strip(p), st);
      if InSomeChunk(Strip(p), st.chunks) {
        var c :| c in st.chunks && Contains(c, Strip(p));
        assert c in chunks;
      } else {
        StripKeepsStrippedInfix(st.current, Strip(p));
        assert Strip(st.current) in chunks;
      }
    }
  }

  // ---------------------------------------------------------------------
  // infer_metadata
  // ---------------------------------------------------------------------

  /** The metadata dictionary attached to every chunk of a file. */
  datatype Metadata = Metadata(docType: string, topic: string, source: string)

  /** A keyword looked for in the lower-cased file name, and the topic it selects. */
  datatype TopicRule = TopicRule(keyword: string, topic: string)

  /** The keyword tests of `infer_metadata`, in the order they are tried. */
  const TopicRules: seq<TopicRule> := [
    TopicRule("missing", "missing_values"),
    TopicRule("outlier", "outliers"),
    TopicRule("correlation", "correlation"),
    TopicRule("visual", "visualization"),
    TopicRule("workflow", "workflow")
  ]

  /** The topic of a file name that matches no rule. */
  const FallbackTopic: string := "eda_general"

  /** Index of the first rule, from index `from` on, whose keyword occurs in
      `name`, or `|rules|` when none does. */
  function FirstMatch(name: string, rules: seq<TopicRule>, from: nat := 0): (i: nat)
    requires from <= |rules|
    ensures from <= i <= |rules|
    ensures forall j :: from <= j < i ==> !Contains(name, rules[j].keyword)
    ensures i < |rules| ==> Contains(name, rules[i].keyword)
    decreases |rules| - from
  {
    if from == |rules| then from
    else if Contains(name, rules[from].keyword) then from
    else FirstMatch(name, rules, from + 1)
  }

  /** The topic the first matching rule selects, or the fallback. */
  function TopicByRules(name: string): string {
    var i := FirstMatch(name, TopicRules);
    if i < |TopicRules| then TopicRules[i].topic else FallbackTopic
  }

  /** `infer_metadata(filename)`: the topic is chosen from the lower-cased
      file name by an if/elif chain over the keywords; the document type and
      source never vary. */
  function InferMetadata(filename: string): (m: Metadata)
    ensures m.docType == "eda_guideline" && m.source == "eda_handbook"
  {
    var name := Lower(filename);
    var topic :=
      if Contains(name, "missing") then "missing_values"
      else if Contains(name, "outlier") then "outliers"
      else if Contains(name, "correlation") then "correlation"
      else if Contains(name, "visual") then "visualization"
      else if Contains(name, "workflow") then "workflow"
      else "eda_general";
    Metadata("eda_guideline", topic, "eda_handbook")
  }

  /** The if/elif chain picks the topic of the first rule of TopicRules whose
      keyword occurs in the lower-cased name, and the fallback when none does. */
  lemma InferMetadataFollowsRules(filename: string)
    ensures InferMetadata(filename).topic == TopicByRules(Lower(filename))
  {
    var name := Lower(filename);
    var rules := TopicRules;
    if !Contains(name, "missing") {
      assert FirstMatch(name, rules, 0) == FirstMatch(name, rules, 1);
      if !Contains(name, "outlier") {
        assert FirstMatch(name, rules, 1) == FirstMatch(name, rules, 2);
        if !Contains(name, "correlation") {
          assert FirstMatch(name, rules, 2) == FirstMatch(name, rules, 3);
          if !Contains(name, "visual") {
            assert FirstMatch(name, rules, 3) == FirstMatch(name, rules, 4);
          }
        }
      }
    }
  }

  /** No two rules select the same topic, and none selects the fallback. */
  lemma TopicsDistinct()
    ensures forall i, j :: 0 <= i < j < |TopicRules| ==> TopicRules[i].topic != TopicRules[j].topic
    ensures forall i :: 0 <= i < |TopicRules| ==> TopicRules[i].topic != FallbackTopic
  {
    assert "outliers"[0] != "workflow"[0];
  }

  /** The topic names the rule that fired: a rule's topic is chosen exactly
      when its keyword occurs in the lower-cased name and no earlier keyword
      does, and the fallback exactly when no keyword occurs. */
  lemma InferMetadataPriority(filename: string)
    ensures forall i :: 0 <= i < |TopicRules| ==>
      ((InferMetadata(filename).topic == TopicRules[i].topic)
        <==> (Contains(Lower(filename), TopicRules[i].keyword)
              && forall j :: 0 <= j < i ==> !Contains(Lower(filename), TopicRules[j].keyword)))
    ensures (InferMetadata(filename).topic == FallbackTopic)
      <==> forall j :: 0 <= j < |TopicRules| ==> !Contains(Lower(filename), TopicRules[j].keyword)
  {
    var name := Lower(filename);
    var k := FirstMatch(name, TopicRules);
    InferMetadataFollowsRules(filename);
    TopicsDistinct();
    forall i | 0 <= i < |TopicRules|
      ensures (InferMetadata(filename).topic == TopicRules[i].topic)
        <==> (Contains(name, TopicRules[i].keyword) && forall j :: 0 <= j < i ==> !Contains(name, TopicRules[j].keyword))
    {
      if i > k {
        assert !(forall j :: 0 <= j < i ==> !Contains(name, TopicRules[j].keyword));
      }
    }
  }

  /** Matching ignores case: a file name and its lower-cased form get the same metadata. */
  lemma InferMetadataIgnoresCase(filename: string)
    ensures InferMetadata(Lower(filename)) == InferMetadata(filename)
  {
    assert Lower(Lower(filename)) == Lower(filename);
  }
}

/**
 * `parseMarkdownBold`: a line is split on the regular expression
 * `/(\*\*[^*]+\*\*)/g`, which (through its capture group) keeps the matched
 * spans in the result, and every piece that starts and ends with `**` is
 * rendered bold without its first and last two characters.
 */
module Markdown {
  import opened Wrappers
  import opened Seqs
  import opened Strings

  /** A span the regular expression matches: `**`, a non-empty run free of `*`, `**`. */
  predicate IsSpan(t: string)
  {
    |t| >= 5 && t[0] == '*' && t[1] == '*' && t[|t| - 2] == '*' && t[|t| - 1] == '*'
    && forall k :: 2 <= k < |t| - 2 ==> t[k] != '*'
  }

  /** The first index at or after `i` holding `*`, or `|s|`. */
  function StarFrom(s: string, i: nat): (r: nat)
    requires i <= |s|
    ensures i <= r <= |s|
    ensures forall k :: i <= k < r ==> s[k] != '*'
    ensures r < |s| ==> s[r] == '*'
    decreases |s| - i
  {
    if i < |s| && s[i] != '*' then StarFrom(s, i + 1) else i
  }

  /** Matching at position `p`: the end of the span that starts there, if any. */
  function MatchAt(s: string, p: nat): (r: Option<nat>)
    requires p <= |s|
    ensures r.Some? ==> p + 5 <= r.value <= |s| && IsSpan(s[p..r.value])
  {
    if p + 2 <= |s| && s[p] == '*' && s[p + 1] == '*' then
      var q := StarFrom(s, p + 2);
      if q > p + 2 && q + 2 <= |s| && s[q + 1] == '*' then
        SpanAt(s, p, q);
        Some(q + 2)
      else
        None
    else
      None
  }

  /**
   * Matching finds every span: whenever a span starts at `p`, matching at `p`
   * finds it. So at most one span starts at a position, since `[^*]+` cannot stop before a `*`.
   */
  lemma MatchAtExact(s: string, p: nat)
    requires p <= |s|
    ensures forall e :: p <= e <= |s| && IsSpan(s[p..e]) ==> MatchAt(s, p) == Some(e)
  {
    forall e | p <= e <= |s| && IsSpan(s[p..e])
      ensures MatchAt(s, p) == Some(e)
    {
      var t := s[p..e];
      assert s[p] == t[0] && s[p + 1] == t[1] && s[e - 1] == t[|t| - 1];
      SpanEnd(s, p, StarFrom(s, p + 2));
    }
  }

  /** Two `*`, a non-empty run free of `*` and two more `*` make a span. */
  lemma SpanAt(s: string, p: nat, q: nat)
    requires p + 2 < q && q + 2 <= |s| && q == StarFrom(s, p + 2)
    requires s[p] == '*' && s[p + 1] == '*' && s[q + 1] == '*'
    ensures IsSpan(s[p..q + 2])
  {
    var t := s[p..q + 2];
    forall k | 2 <= k < |t| - 2
      ensures t[k] != '*'
    {
      assert t[k] == s[p + k];
    }
  }

  /** A span starting at `p` ends two characters after the first `*` following `p + 2`. */
  lemma SpanEnd(s: string, p: nat, q: nat)
    requires p + 2 <= |s| && q == StarFrom(s, p + 2)
    ensures forall e :: p <= e <= |s| && IsSpan(s[p..e]) ==> e == q + 2
  {
    forall e | p <= e <= |s| && IsSpan(s[p..e])
      ensures e == q + 2
    {
      var t := s[p..e];
      forall k | p + 2 <= k < e - 2
        ensures s[k] != '*'
      {
        assert s[k] == t[k - p];
      }
      assert s[e - 2] == t[|t| - 2];
    }
  }

  /**
   * The splitting loop of `String.prototype.split` with a regular expression
   * (section 22.2.6.14 of ECMA-262): the text from `p` to the next match,
   * then the match itself, then the rest; the search position is `q`.
   */
  function SplitFrom(s: string, p: nat, q: nat): seq<string>
    requires p <= q <= |s|
    decreases |s| - q
  {
    if q >= |s| then [s[p..]]
    else match MatchAt(s, q)
      case None => SplitFrom(s, p, q + 1)
      case Some(e) => [s[p..q], s[q..e]] + SplitFrom(s, e, e)
  }

  /** `text.split(/(\*\*[^*]+\*\*)/g)`. */
  function Split(text: string): seq<string>
  {
    SplitFrom(text, 0, 0)
  }

  /** No span lies wholly inside `t`. */
  predicate SpanFree(t: string)
  {
    forall i, j :: 0 <= i <= j <= |t| ==> !IsSpan(t[i..j])
  }

  /** There is one more unmatched piece than there are spans, and together the pieces are the text. */
  lemma {:induction false} SplitFromConcat(s: string, p: nat, q: nat)
    requires p <= q <= |s|
    ensures |SplitFrom(s, p, q)| % 2 == 1
    ensures Concat(SplitFrom(s, p, q)) == s[p..]
    decreases |s| - q
  {
    var r := SplitFrom(s, p, q);
    if q >= |s| {
      assert r[1..] == [];
    } else {
      match MatchAt(s, q)
      case None =>
        SplitFromConcat(s, p, q + 1);
      case Some(e) =>
        SplitFromConcat(s, e, e);
        ConcatTwo(s[p..q], s[q..e], SplitFrom(s, e, e));
        SliceThree(s, p, q, e);
    }
  }

  lemma SliceThree(s: string, p: nat, q: nat, e: nat)
    requires p <= q <= e <= |s|
    ensures s[p..] == s[p..q] + s[q..e] + s[e..]
  {
  }

  lemma ConcatTwo(a: string, b: string, rest: seq<string>)
    ensures Concat([a, b] + rest) == a + b + Concat(rest)
  {
    var r := [a, b] + rest;
    assert r[1..] == [b] + rest;
    assert r[1..][1..] == rest;
  }

  /**
   * The pieces alternate between unmatched text (even positions), which
   * contains no span, and matched spans (odd positions).
   */
  lemma {:induction false} SplitFromPieces(s: string, p: nat, q: nat)
    requires p <= q <= |s|
    requires forall x :: p <= x < q ==> MatchAt(s, x) == None
    ensures forall k :: 0 <= k < |SplitFrom(s, p, q)| && k % 2 == 1 ==> IsSpan(SplitFrom(s, p, q)[k])
    ensures forall k :: 0 <= k < |SplitFrom(s, p, q)| && k % 2 == 0 ==> SpanFree(SplitFrom(s, p, q)[k])
    decreases |s| - q
  {
    var r := SplitFrom(s, p, q);
    if q >= |s| {
      UnmatchedSpanFree(s, p, |s|);
      assert s[p..] == s[p..|s|];
    } else {
      match MatchAt(s, q)
      case None =>
        SplitFromPieces(s, p, q + 1);
      case Some(e) =>
        var rest := SplitFrom(s, e, e);
        SplitFromPieces(s, e, e);
        UnmatchedSpanFree(s, p, q);
        forall k | 0 <= k < |r|
          ensures k % 2 == 1 ==> IsSpan(r[k])
          ensures k % 2 == 0 ==> SpanFree(r[k])
        {
          if k >= 2 {
            assert r[k] == rest[k - 2];
          }
        }
    }
  }

  /** Text in which no match starts contains no span. */
  lemma UnmatchedSpanFree(s: string, p: nat, q: nat)
    requires p <= q <= |s|
    requires forall x :: p <= x < q ==> MatchAt(s, x) == None
    ensures SpanFree(s[p..q])
  {
    var t := s[p..q];
    forall i, j | 0 <= i <= j <= |t|
      ensures !IsSpan(t[i..j])
    {
      assert t[i..j] == s[p + i..p + j] by {
        assert |t[i..j]| == j - i;
        forall k | 0 <= k < j - i
          ensures t[i..j][k] == s[p + i..p + j][k]
        {
          assert t[i..j][k] == t[i + k] == s[p + i + k];
        }
      }
      if i < j {
        MatchAtExact(s, p + i);
      }
    }
  }

  /** A rendered piece: plain text or a `<strong>` element with its text. */
  datatype Piece = Plain(text: string) | Bold(text: string)

  /** `part.slice(2, -2)`. */
  function SliceInner(part: string): (r: string)
    ensures |part| >= 4 ==> r == part[2..|part| - 2]
    ensures |part| < 4 ==> r == ""
  {
    if |part| >= 4 then part[2..|part| - 2] else ""
  }

  /** The `map` callback: bold when the piece starts and ends with `**`. */
  function RenderPart(part: string): Piece
  {
    if StartsWith(part, "**") && EndsWith(part, "**") then Bold(SliceInner(part)) else Plain(part)
  }

  function ParseMarkdownBold(text: string): (r: seq<Piece>)
    ensures |r| == |Split(text)|
    ensures forall k :: 0 <= k < |r| ==> r[k] == RenderPart(Split(text)[k])
  {
    var parts := Split(text);
    seq(|parts|, k requires 0 <= k < |parts| => RenderPart(parts[k]))
  }

  /** The pieces of the split put back together are the text. */
  lemma SplitConcat(text: string)
    ensures Concat(Split(text)) == text
    ensures |Split(text)| % 2 == 1
  {
    SplitFromConcat(text, 0, 0);
  }

  /** Every matched span is rendered bold, its text non-empty and free of `*`, with the markers removed. */
  lemma SpansRenderBold(text: string, k: nat)
    requires k < |Split(text)| && k % 2 == 1
    ensures ParseMarkdownBold(text)[k].Bold?
    ensures var t := ParseMarkdownBold(text)[k].text;
            t != "" && '*' !in t && "**" + t + "**" == Split(text)[k]
  {
    SplitFromPieces(text, 0, 0);
    var part := Split(text)[k];
    assert part[..2] == "**";
    assert part[|part| - 2..] == "**";
    var t := part[2..|part| - 2];
    assert part == "**" + t + "**";
    forall i | 0 <= i < |t|
      ensures t[i] != '*'
    {
      assert t[i] == part[i + 2];
    }
  }

  /** The unmatched pieces contain no span; any bold among them comes from the `startsWith`/`endsWith` test alone. */
  lemma PlainPiecesSpanFree(text: string, k: nat)
    requires k < |Split(text)| && k % 2 == 0
    ensures SpanFree(Split(text)[k])
  {
    SplitFromPieces(text, 0, 0);
  }

  /** The markdown a rendered piece stands for: bold text gets its markers back. */
  function Restore(p: Piece): string
  {
    match p
    case Plain(t) => t
    case Bold(t) => "**" + t + "**"
  }

  /**
   * Rendering loses nothing for every piece except `**` and `***`: those start
   * and end with `**`, and `slice(2, -2)` of them is empty.
   */
  lemma RenderRestore(part: string)
    ensures Restore(RenderPart(part)) == part <==> part != "**" && part != "***"
  {
    if StartsWith(part, "**") && EndsWith(part, "**") {
      assert part[0] == '*' && part[1] == '*';
      if |part| >= 4 {
        var t := part[2..|part| - 2];
        assert part == part[..2] + t + part[|part| - 2..];
      } else if |part| == 3 {
        assert part[2] == '*';
        assert part == "***";
      } else {
        assert part == "**";
      }
    }
  }

  /** The markdown a line of rendered pieces stands for. */
  function Unparse(ps: seq<Piece>): string
  {
    if ps == [] then "" else Restore(ps[0]) + Unparse(ps[1..])
  }

  lemma {:induction false} UnparsePieces(ps: seq<Piece>, parts: seq<string>)
    requires |ps| == |parts| && forall k :: 0 <= k < |ps| ==> Restore(ps[k]) == parts[k]
    ensures Unparse(ps) == Concat(parts)
  {
    if ps != [] {
      UnparsePieces(ps[1..], parts[1..]);
    }
  }

  /** When no piece is `**` or `***`, the rendered line read back as markdown is the line. */
  lemma ParseRoundTrip(text: string)
    requires forall k :: 0 <= k < |Split(text)| ==> Split(text)[k] != "**" && Split(text)[k] != "***"
    ensures Unparse(ParseMarkdownBold(text)) == text
  {
    var parts := Split(text);
    var ps := ParseMarkdownBold(text);
    forall k | 0 <= k < |parts|
      ensures Restore(ps[k]) == parts[k]
    {
      RenderRestore(parts[k]);
    }
    UnparsePieces(ps, parts);
    SplitConcat(text);
  }

  /** The split of a line with one span: the text before it, the span, the text after it. */
  lemma ExampleSpanSplit()
    ensures Split("a **b** c") == ["a ", "**b**", " c"]
  {
    var s := "a **b** c";
    ExampleSpanMatch();
    assert SplitFrom(s, 0, 0) == SplitFrom(s, 0, 1) == SplitFrom(s, 0, 2);
    assert s[0..2] == "a " && s[2..7] == "**b**" && s[7..] == " c";
    assert SplitFrom(s, 0, 2) == ["a ", "**b**"] + SplitFrom(s, 7, 7);
    ExampleSpanTail();
  }

  lemma ExampleSpanMatch()
    ensures MatchAt("a **b** c", 0) == None && MatchAt("a **b** c", 1) == None
    ensures MatchAt("a **b** c", 2) == Some(7)
  {
    assert StarFrom("a **b** c", 4) == 5;
  }

  lemma ExampleSpanTail()
    ensures SplitFrom("a **b** c", 7, 7) == [" c"]
  {
    var s := "a **b** c";
    assert MatchAt(s, 7) == None && MatchAt(s, 8) == None;
    assert SplitFrom(s, 7, 7) == SplitFrom(s, 7, 8) == SplitFrom(s, 7, 9);
    assert s[7..] == " c";
  }

  /** Rendering a line split into three pieces renders each piece. */
  lemma RenderThree(text: string, a: string, b: string, c: string)
    requires Split(text) == [a, b, c]
    ensures ParseMarkdownBold(text) == [RenderPart(a), RenderPart(b), RenderPart(c)]
  {
  }

  /** A bold span between plain text. */
  lemma ExampleSpan()
    ensures ParseMarkdownBold("a **b** c") == [Plain("a "), Bold("b"), Plain(" c")]
  {
    ExampleSpanSplit();
    RenderThree("a **b** c", "a ", "**b**", " c");
    assert RenderPart("a ") == Plain("a ") by {
      assert !("**" <= "a ");
    }
    assert RenderPart("**b**") == Bold("b") by {
      assert "**" <= "**b**";
      assert "**b**"[3..] == "**" && "**b**"[2..3] == "b";
    }
    assert RenderPart(" c") == Plain(" c") by {
      assert !("**" <= " c");
    }
  }

  /** `**` is no span, yet it is rendered as an empty bold element. */
  lemma ExampleMarkersOnly()
    ensures ParseMarkdownBold("**") == [Bold("")]
  {
    var s := "**";
    assert SplitFrom(s, 0, 0) == SplitFrom(s, 0, 1) == SplitFrom(s, 0, 2) == [s];
  }

  /** `****` is no span (the run between the markers is empty) and is rendered as an empty bold element. */
  lemma ExampleFourStars()
    ensures ParseMarkdownBold("****") == [Bold("")]
  {
    var s := "****";
    assert MatchAt(s, 0) == None && MatchAt(s, 1) == None;
    assert SplitFrom(s, 0, 0) == SplitFrom(s, 0, 1) == SplitFrom(s, 0, 2);
    assert MatchAt(s, 2) == None && MatchAt(s, 3) == None;
    assert SplitFrom(s, 0, 2) == SplitFrom(s, 0, 3) == SplitFrom(s, 0, 4) == [s];
    assert RenderPart(s) == Bold("") by {
      assert "**" <= s && s[2..] == "**";
    }
  }

  /** `**a*b**` is no span (its run holds a `*`), yet it is rendered bold, `*` included. */
  lemma ExampleInnerStar()
    ensures ParseMarkdownBold("**a*b**") == [Bold("a*b")]
  {
    var s := "**a*b**";
    assert StarFrom(s, 2) == 3;
    assert MatchAt(s, 0) == None && MatchAt(s, 1) == None && MatchAt(s, 2) == None;
    assert MatchAt(s, 3) == None && MatchAt(s, 4) == None;
    assert SplitFrom(s, 0, 0) == SplitFrom(s, 0, 1) == SplitFrom(s, 0, 2) == SplitFrom(s, 0, 3);
    assert SplitFrom(s, 0, 3) == SplitFrom(s, 0, 4) == SplitFrom(s, 0, 5);
    assert StarFrom(s, 7) == 7;
    assert MatchAt(s, 5) == None && MatchAt(s, 6) == None;
    assert SplitFrom(s, 0, 5) == SplitFrom(s, 0, 6) == SplitFrom(s, 0, 7) == [s];
    assert RenderPart(s) == Bold("a*b") by {
      assert "**" <= s;
      assert s[5..] == "**" && s[2..5] == "a*b";
    }
  }
}

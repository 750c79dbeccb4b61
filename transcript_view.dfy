/**
 * The transcript formatter of pages/watch.js. `formatTranscript` renders nothing for an empty
 * transcript, hands text with `##` to `parseMarkdown`, and otherwise splits the text into
 * sentences, trims them, drops blank ones, escapes `<` and `>` and wraps each in `<p>`.
 * Of `parseMarkdown`, the empty-input rule and the header and bold passes are modelled.
 */
module TranscriptView {
  import opened Wrappers
  import opened Strings

  // ---- escaping ----

  /** `s.replace(/c/g, replacement)`. */
  function ReplaceAll(s: string, c: char, replacement: string): (r: string)
    ensures c !in replacement ==> c !in r
    ensures forall d :: d in r ==> d in s || d in replacement
  {
    if s == [] then []
    else (if s[0] == c then replacement else [s[0]]) + ReplaceAll(s[1..], c, replacement)
  }

  /** `.replace(/</g, '&lt;').replace(/>/g, '&gt;')`. */
  function Escape(s: string): string {
    ReplaceAll(ReplaceAll(s, '<', "&lt;"), '>', "&gt;")
  }

  /** The escape of one character: only the two angle brackets change. */
  function EscapeChar(c: char): string {
    if c == '<' then "&lt;" else if c == '>' then "&gt;" else [c]
  }

  /** The same escape as one pass, character by character. */
  function EscapeEach(s: string): string {
    if s == [] then [] else EscapeChar(s[0]) + EscapeEach(s[1..])
  }

  lemma ReplaceAllAppend(a: string, b: string, c: char, replacement: string)
    ensures ReplaceAll(a + b, c, replacement) == ReplaceAll(a, c, replacement) + ReplaceAll(b, c, replacement)
  {
    if a != [] {
      assert (a + b)[1..] == a[1..] + b;
      ReplaceAllAppend(a[1..], b, c, replacement);
    } else {
      assert a + b == b;
    }
  }

  /**
   * A one-character string becomes the replacement when it is `c` and stays as it is otherwise;
   * with ReplaceAllAppend this fixes ReplaceAll on every string, one character at a time.
   */
  lemma ReplaceAllSingle(x: char, c: char, replacement: string)
    ensures ReplaceAll([x], c, replacement) == if x == c then replacement else [x]
  {
    assert [x][1..] == [];
    if x == c {
      assert replacement + [] == replacement;
    }
  }

  /** Text without the character is left as it is. */
  lemma {:induction false} ReplaceAllAbsent(s: string, c: char, replacement: string)
    requires c !in s
    ensures ReplaceAll(s, c, replacement) == s
  {
    if s != [] {
      assert s[0] != c && c !in s[1..];
      ReplaceAllAbsent(s[1..], c, replacement);
      assert [s[0]] + s[1..] == s;
    }
  }

  /** Every occurrence is replaced: each `c` of `s` leaves a copy of the replacement at its place. */
  lemma ReplaceAllAt(s: string, i: nat, c: char, replacement: string)
    requires i < |s| && s[i] == c
    ensures ReplaceAll(s, c, replacement)
         == ReplaceAll(s[..i], c, replacement) + replacement + ReplaceAll(s[i + 1..], c, replacement)
  {
    assert s == s[..i] + ([s[i]] + s[i + 1..]);
    ReplaceAllAppend(s[..i], [s[i]] + s[i + 1..], c, replacement);
    ReplaceAllAppend([s[i]], s[i + 1..], c, replacement);
    ReplaceAllSingle(s[i], c, replacement);
  }

  /** The two global replacements escape each character independently. */
  lemma {:induction false} EscapeIsCharwise(s: string)
    ensures Escape(s) == EscapeEach(s)
  {
    if s != [] {
      EscapeIsCharwise(s[1..]);
      var first := if s[0] == '<' then "&lt;" else [s[0]];
      assert ReplaceAll(s, '<', "&lt;") == first + ReplaceAll(s[1..], '<', "&lt;");
      ReplaceAllAppend(first, ReplaceAll(s[1..], '<', "&lt;"), '>', "&gt;");
      assert ReplaceAll("&lt;", '>', "&gt;") == "&lt;" by {
        assert "&lt;" == ['&'] + "lt;" && "lt;" == ['l'] + "t;" && "t;" == ['t'] + ";";
      }
      if s[0] != '<' {
        assert ReplaceAll([s[0]], '>', "&gt;") == EscapeChar(s[0]);
      }
    }
  }

  /** Escaped text never holds an angle bracket, and text without one is left as it was. */
  lemma EscapeMeaning(s: string)
    ensures '<' !in Escape(s) && '>' !in Escape(s)
    ensures '<' !in s && '>' !in s ==> Escape(s) == s
  {
    if '<' !in s && '>' !in s {
      EscapeIsCharwise(s);
      UnchangedWithoutBrackets(s);
    }
  }

  lemma {:induction false} UnchangedWithoutBrackets(s: string)
    requires '<' !in s && '>' !in s
    ensures EscapeEach(s) == s
  {
    if s != [] {
      assert s == [s[0]] + s[1..];
      UnchangedWithoutBrackets(s[1..]);
    }
  }

  /** The escape loses information: a bracket and its entity render alike. */
  lemma EscapeNotInjective()
    ensures Escape("<") == Escape("&lt;") == "&lt;"
  {
    EscapeMeaning("&lt;");
    EscapeIsCharwise("<");
    assert EscapeEach("<") == EscapeChar('<') + EscapeEach("");
  }

  // ---- sentence splitting ----

  predicate IsSentenceEnd(c: char) {
    c == '.' || c == '!' || c == '?'
  }

  /** `(?<=[.!?])\s+` can match at `q`: a sentence mark just before, a space at `q`. */
  predicate SplitsAt(s: string, q: int) {
    0 < q < |s| && IsSentenceEnd(s[q - 1]) && IsJsSpace(s[q])
  }

  /** The end of the (greedy) run of spaces starting at `i`. */
  function SpaceRunEnd(s: string, i: nat): (e: nat)
    requires i <= |s|
    ensures i <= e <= |s| && (e == |s| || !IsJsSpace(s[e]))
    ensures forall k :: i <= k < e ==> IsJsSpace(s[k])
    decreases |s| - i
  {
    if i < |s| && IsJsSpace(s[i]) then SpaceRunEnd(s, i + 1) else i
  }

  /** The pieces of a split and the runs of spaces removed between them. */
  datatype Split = Split(pieces: seq<string>, separators: seq<string>)

  /** `split` from piece start `p`, trying a match at `q` and onwards. */
  function SplitFrom(s: string, p: nat, q: nat): (r: Split)
    requires p <= q <= |s|
    ensures |r.pieces| == |r.separators| + 1
    decreases |s| - q
  {
    if q == |s| then Split([s[p..]], [])
    else if SplitsAt(s, q) then
      var e := SpaceRunEnd(s, q);
      var rest := SplitFrom(s, e, e);
      Split([s[p..q]] + rest.pieces, [s[q..e]] + rest.separators)
    else SplitFrom(s, p, q + 1)
  }

  /** `text.split(/(?<=[.!?])\s+/)`, with the separators it drops. */
  function SplitSentences(s: string): Split {
    SplitFrom(s, 0, 0)
  }

  /** Pieces and separators taken alternately. */
  function Interleave(pieces: seq<string>, separators: seq<string>): string
    requires |pieces| == |separators| + 1
  {
    if separators == [] then pieces[0]
    else pieces[0] + separators[0] + Interleave(pieces[1..], separators[1..])
  }

  /** The split loses only the separators: putting them back gives the text. */
  lemma {:induction false} SplitRoundTrip(s: string, p: nat, q: nat)
    requires p <= q <= |s|
    ensures Interleave(SplitFrom(s, p, q).pieces, SplitFrom(s, p, q).separators) == s[p..]
    decreases |s| - q
  {
    if q == |s| {
      assert SplitFrom(s, p, q) == Split([s[p..]], []);
    } else if SplitsAt(s, q) {
      var e := SpaceRunEnd(s, q);
      SplitRoundTrip(s, e, e);
      var rest := SplitFrom(s, e, e);
      var r := SplitFrom(s, p, q);
      assert r == Split([s[p..q]] + rest.pieces, [s[q..e]] + rest.separators);
      assert r.pieces[0] == s[p..q] && r.separators[0] == s[q..e];
      assert r.pieces[1..] == rest.pieces && r.separators[1..] == rest.separators;
      assert Interleave(r.pieces, r.separators)
          == r.pieces[0] + r.separators[0] + Interleave(r.pieces[1..], r.separators[1..]);
      assert s[q..] == s[q..e] + s[e..];
      assert s[p..] == s[p..q] + s[q..];
    } else {
      assert SplitFrom(s, p, q) == SplitFrom(s, p, q + 1);
      SplitRoundTrip(s, p, q + 1);
    }
  }

  /** A non-empty run of spaces. */
  predicate IsSpaceRun(t: string) {
    t != [] && forall k :: 0 <= k < |t| ==> IsJsSpace(t[k])
  }

  predicate AllSpaceRuns(separators: seq<string>) {
    forall k :: 0 <= k < |separators| ==> IsSpaceRun(separators[k])
  }

  /** Each separator is a non-empty run of spaces. */
  lemma {:induction false} SplitSeparators(s: string, p: nat, q: nat)
    requires p <= q <= |s|
    ensures AllSpaceRuns(SplitFrom(s, p, q).separators)
    decreases |s| - q
  {
    if q == |s| {
    } else if SplitsAt(s, q) {
      var e := SpaceRunEnd(s, q);
      SplitSeparators(s, e, e);
      var rest := SplitFrom(s, e, e);
      var r := SplitFrom(s, p, q);
      assert r == Split([s[p..q]] + rest.pieces, [s[q..e]] + rest.separators);
      assert IsSpaceRun(s[q..e]) by {
        assert e > q;
        forall k | 0 <= k < e - q ensures IsJsSpace(s[q..e][k]) {
          assert s[q..e][k] == s[q + k];
        }
      }
      forall k | 0 <= k < |r.separators| ensures IsSpaceRun(r.separators[k]) {
        if k == 0 {
          assert r.separators[0] == s[q..e];
        } else {
          assert r.separators[k] == rest.separators[k - 1];
          assert IsSpaceRun(rest.separators[k - 1]);
        }
      }
    } else {
      assert SplitFrom(s, p, q) == SplitFrom(s, p, q + 1);
      SplitSeparators(s, p, q + 1);
    }
  }

  /** Every piece but the last ends in a sentence mark. */
  predicate EndInSentenceMarks(pieces: seq<string>) {
    forall k :: 0 <= k < |pieces| - 1 ==> pieces[k] != [] && IsSentenceEnd(pieces[k][|pieces[k]| - 1])
  }

  predicate NoPieceSplits(pieces: seq<string>) {
    forall k :: 0 <= k < |pieces| ==> NoSplitPoint(pieces[k])
  }

  /**
   * Every piece but the last ends in a sentence mark, and no piece holds a point where the
   * split could have cut.
   */
  lemma {:induction false} SplitPieces(s: string, p: nat, q: nat)
    requires p <= q <= |s| && !SplitsAt(s, p)
    requires forall k :: p < k < q ==> !SplitsAt(s, k)
    ensures EndInSentenceMarks(SplitFrom(s, p, q).pieces)
    ensures NoPieceSplits(SplitFrom(s, p, q).pieces)
    decreases |s| - q
  {
    if q == |s| {
      NoSplitInside(s, p, q);
      assert s[p..q] == s[p..];
      assert SplitFrom(s, p, q) == Split([s[p..q]], []);
    } else if SplitsAt(s, q) {
      var e := SpaceRunEnd(s, q);
      SplitPieces(s, e, e);
      NoSplitInside(s, p, q);
      var rest := SplitFrom(s, e, e);
      var r := SplitFrom(s, p, q);
      assert r == Split([s[p..q]] + rest.pieces, [s[q..e]] + rest.separators);
      assert q > p;
      assert s[p..q] != [] && IsSentenceEnd(s[p..q][q - p - 1]);
      forall k | 0 <= k < |r.pieces| - 1 ensures r.pieces[k] != [] && IsSentenceEnd(r.pieces[k][|r.pieces[k]| - 1]) {
        if k > 0 {
          assert r.pieces[k] == rest.pieces[k - 1];
        }
      }
      forall k | 0 <= k < |r.pieces| ensures NoSplitPoint(r.pieces[k]) {
        if k > 0 {
          assert r.pieces[k] == rest.pieces[k - 1];
        }
      }
    } else {
      assert SplitFrom(s, p, q) == SplitFrom(s, p, q + 1);
      SplitPieces(s, p, q + 1);
    }
  }

  /** No sentence mark directly followed by a space. */
  predicate NoSplitPoint(t: string) {
    forall k :: 0 < k < |t| ==> !(IsSentenceEnd(t[k - 1]) && IsJsSpace(t[k]))
  }

  lemma NoSplitInside(s: string, p: nat, q: nat)
    requires p <= q <= |s|
    requires forall k :: p < k < q ==> !SplitsAt(s, k)
    ensures NoSplitPoint(s[p..q])
  {
    forall k | 0 < k < q - p ensures !(IsSentenceEnd(s[p..q][k - 1]) && IsJsSpace(s[p..q][k])) {
      assert !SplitsAt(s, p + k);
    }
  }

  /** The first piece from `p` is a prefix of the text from `p`. */
  lemma {:induction false} FirstPieceIsPrefix(s: string, p: nat, q: nat)
    requires p <= q <= |s|
    ensures SplitFrom(s, p, q).pieces[0] <= s[p..]
    decreases |s| - q
  {
    if q == |s| {
      assert SplitFrom(s, p, q) == Split([s[p..]], []);
    } else if SplitsAt(s, q) {
      var e := SpaceRunEnd(s, q);
      var rest := SplitFrom(s, e, e);
      assert SplitFrom(s, p, q) == Split([s[p..q]] + rest.pieces, [s[q..e]] + rest.separators);
      assert s[p..q] == s[p..][..q - p];
    } else {
      assert SplitFrom(s, p, q) == SplitFrom(s, p, q + 1);
      FirstPieceIsPrefix(s, p, q + 1);
    }
  }

  /** Every piece after the first is empty or starts with a non-space. */
  predicate LaterPiecesStartClean(pieces: seq<string>) {
    forall k :: 0 < k < |pieces| ==> pieces[k] == [] || !IsJsSpace(pieces[k][0])
  }

  /**
   * The separators are whole runs: the greedy `\s+` leaves no space at the start of the next
   * piece.
   */
  lemma {:induction false} SplitSeparatorsMaximal(s: string, p: nat, q: nat)
    requires p <= q <= |s|
    ensures LaterPiecesStartClean(SplitFrom(s, p, q).pieces)
    decreases |s| - q
  {
    if q == |s| {
      assert SplitFrom(s, p, q) == Split([s[p..]], []);
    } else if SplitsAt(s, q) {
      var e := SpaceRunEnd(s, q);
      var rest := SplitFrom(s, e, e);
      var r := SplitFrom(s, p, q);
      assert r == Split([s[p..q]] + rest.pieces, [s[q..e]] + rest.separators);
      SplitSeparatorsMaximal(s, e, e);
      FirstPieceIsPrefix(s, e, e);
      var first := rest.pieces[0];
      assert first == [] || !IsJsSpace(first[0]) by {
        if first != [] {
          assert first[0] == s[e..][0] == s[e];
        }
      }
      forall k | 0 < k < |r.pieces| ensures r.pieces[k] == [] || !IsJsSpace(r.pieces[k][0]) {
        assert r.pieces[k] == rest.pieces[k - 1];
      }
    } else {
      assert SplitFrom(s, p, q) == SplitFrom(s, p, q + 1);
      SplitSeparatorsMaximal(s, p, q + 1);
    }
  }

  /**
   * The split's promises: it loses only the separators; each separator is a whole run of spaces
   * right after a sentence mark; no piece holds a point where it could have cut.
   */
  lemma SplitSentencesMeaning(s: string)
    ensures Interleave(SplitSentences(s).pieces, SplitSentences(s).separators) == s
    ensures AllSpaceRuns(SplitSentences(s).separators)
    ensures EndInSentenceMarks(SplitSentences(s).pieces)
    ensures LaterPiecesStartClean(SplitSentences(s).pieces)
    ensures NoPieceSplits(SplitSentences(s).pieces)
  {
    SplitRoundTrip(s, 0, 0);
    SplitSeparators(s, 0, 0);
    SplitPieces(s, 0, 0);
    SplitSeparatorsMaximal(s, 0, 0);
    assert s[0..] == s;
  }

  // ---- sentences and paragraphs ----

  /** `.filter(s => s.trim().length > 0).map(s => s.trim())`. */
  function Sentences(pieces: seq<string>): seq<string> {
    if pieces == [] then []
    else (if Trim(pieces[0]) != [] then [Trim(pieces[0])] else []) + Sentences(pieces[1..])
  }

  /** Each piece yields at most one sentence. */
  lemma {:induction false} SentencesAtMost(pieces: seq<string>)
    ensures |Sentences(pieces)| <= |pieces|
  {
    if pieces != [] {
      SentencesAtMost(pieces[1..]);
    }
  }

  /** A trimmed piece that is not blank starts and ends with a non-space. */
  lemma TrimmedEnds(t: string)
    requires Trim(t) != []
    ensures !IsJsSpace(Trim(t)[0]) && !IsJsSpace(Trim(t)[|Trim(t)| - 1])
  {
    var head := TrimStart(t);
    assert Trim(t) == head[..|Trim(t)|];
  }

  /** Non-empty, and neither starting nor ending with a space. */
  predicate IsTrimmedSentence(t: string) {
    t != [] && !IsJsSpace(t[0]) && !IsJsSpace(t[|t| - 1])
  }

  /** The kept sentences are non-empty and neither start nor end with a space. */
  lemma {:induction false} SentencesTrimmed(pieces: seq<string>)
    ensures forall t :: t in Sentences(pieces) ==> IsTrimmedSentence(t)
  {
    if pieces != [] {
      SentencesTrimmed(pieces[1..]);
      var head := if Trim(pieces[0]) != [] then [Trim(pieces[0])] else [];
      assert Sentences(pieces) == head + Sentences(pieces[1..]);
      if Trim(pieces[0]) != [] {
        TrimmedEnds(pieces[0]);
        assert IsTrimmedSentence(Trim(pieces[0]));
      }
      forall t | t in Sentences(pieces) ensures IsTrimmedSentence(t) {
        if t !in head {
          assert t in Sentences(pieces[1..]);
        }
      }
    }
  }

  /** Every non-blank piece is kept, trimmed. */
  lemma {:induction false} NonBlankKept(pieces: seq<string>, k: nat)
    requires k < |pieces| && Trim(pieces[k]) != []
    ensures Trim(pieces[k]) in Sentences(pieces)
  {
    var head := if Trim(pieces[0]) != [] then [Trim(pieces[0])] else [];
    assert Sentences(pieces) == head + Sentences(pieces[1..]);
    if k > 0 {
      assert pieces[k] == pieces[1..][k - 1];
      NonBlankKept(pieces[1..], k - 1);
      assert Trim(pieces[k]) in Sentences(pieces[1..]);
    } else {
      assert head == [Trim(pieces[0])];
    }
  }

  /** One piece gives its trimmed text, or nothing when it is blank. */
  lemma SentencesOfOne(t: string)
    ensures Sentences([t]) == if Trim(t) != [] then [Trim(t)] else []
  {
    assert [t][1..] == [];
  }

  /**
   * Filtering and trimming go piece by piece: the sentences of two runs of pieces are those of the
   * first followed by those of the second. With `SentencesOfOne` this fixes the result's order
   * and multiplicity.
   */
  lemma {:induction false} SentencesAppend(a: seq<string>, b: seq<string>)
    ensures Sentences(a + b) == Sentences(a) + Sentences(b)
  {
    SentencesSplit(a + b, |a|);
    assert (a + b)[..|a|] == a && (a + b)[|a|..] == b;
  }

  /** Cutting the pieces anywhere cuts the sentences at the same place. */
  lemma {:induction false} SentencesSplit(pieces: seq<string>, k: nat)
    requires k <= |pieces|
    ensures Sentences(pieces) == Sentences(pieces[..k]) + Sentences(pieces[k..])
  {
    if k == 0 {
      assert pieces[..0] == [] && pieces[0..] == pieces;
    } else {
      var x := Sentences([pieces[0]]);
      var rest := pieces[1..];
      assert Sentences(pieces) == x + Sentences(rest) by {
        assert pieces == [pieces[0]] + rest;
        SentencesCons(pieces[0], rest);
      }
      assert Sentences(pieces[..k]) == x + Sentences(rest[..k - 1]) by {
        assert pieces[..k] == [pieces[0]] + rest[..k - 1];
        SentencesCons(pieces[0], rest[..k - 1]);
      }
      SentencesSplit(rest, k - 1);
      assert rest[k - 1..] == pieces[k..];
      AppendAssociates(x, Sentences(rest[..k - 1]), Sentences(pieces[k..]));
    }
  }

  lemma AppendAssociates(x: seq<string>, y: seq<string>, z: seq<string>)
    ensures x + (y + z) == (x + y) + z
  {
  }

  /** The first piece contributes its own sentences ahead of the rest. */
  lemma SentencesCons(t: string, p: seq<string>)
    ensures Sentences([t] + p) == Sentences([t]) + Sentences(p)
  {
    assert ([t] + p)[0] == t && ([t] + p)[1..] == p;
    SentencesOfOne(t);
  }

  /**
   * The kept sentences are the non-blank pieces, trimmed: none is empty or starts or ends with a
   * space, every non-blank piece is kept, and they come piece by piece in order.
   */
  lemma SentencesMeaning(pieces: seq<string>)
    ensures forall t :: t in Sentences(pieces) ==> IsTrimmedSentence(t)
    ensures forall k :: 0 <= k < |pieces| && Trim(pieces[k]) != [] ==> Trim(pieces[k]) in Sentences(pieces)
    ensures forall k :: 0 <= k <= |pieces| ==> Sentences(pieces) == Sentences(pieces[..k]) + Sentences(pieces[k..])
  {
    SentencesTrimmed(pieces);
    forall k | 0 <= k < |pieces| && Trim(pieces[k]) != [] ensures Trim(pieces[k]) in Sentences(pieces) {
      NonBlankKept(pieces, k);
    }
    forall k | 0 <= k <= |pieces| ensures Sentences(pieces) == Sentences(pieces[..k]) + Sentences(pieces[k..]) {
      assert pieces == pieces[..k] + pieces[k..];
      SentencesAppend(pieces[..k], pieces[k..]);
    }
  }

  /** `sentences.map(s => `<p>${escaped}</p>`).join('')`. */
  function Paragraphs(sentences: seq<string>): string {
    if sentences == [] then "" else "<p>" + Escape(sentences[0]) + "</p>" + Paragraphs(sentences[1..])
  }

  function EscapeAll(sentences: seq<string>): (r: seq<string>)
    ensures |r| == |sentences| && forall k :: 0 <= k < |r| ==> r[k] == Escape(sentences[k])
  {
    if sentences == [] then [] else [Escape(sentences[0])] + EscapeAll(sentences[1..])
  }

  /** Reads `<p>…</p>` blocks back, each body ending at the first `</p>`. */
  function Unwrap(html: string): Option<seq<string>>
    decreases |html|
  {
    if html == [] then Some([])
    else if !StartsWith(html, "<p>") then None
    else
      var body := html[3..];
      match IndexOf(body, "</p>")
      case None => None
      case Some(k) =>
        if k + 4 > |body| then None
        else
          match Unwrap(body[k + 4..])
          case None => None
          case Some(rest) => Some([body[..k]] + rest)
  }

  lemma CloseTagAfterEscaped(e: string, rest: string)
    requires '<' !in e
    ensures IndexOf(e + "</p>" + rest, "</p>") == Some(|e|)
  {
    var t := e + "</p>" + rest;
    assert t[|e|..|e| + 4] == "</p>";
    assert OccursAt(t, "</p>", |e|);
    forall k | 0 <= k < |e| ensures !OccursAt(t, "</p>", k) {
      assert t[k] == e[k];
    }
  }

  /** One `<p>` block around escaped text reads back as that text. */
  lemma UnwrapBlock(e: string, tail: string)
    requires '<' !in e
    ensures Unwrap("<p>" + e + "</p>" + tail) ==
              match Unwrap(tail)
              case None => None
              case Some(rest) => Some([e] + rest)
  {
    var html := "<p>" + e + "</p>" + tail;
    assert html[..3] == "<p>";
    var body := html[3..];
    assert body == e + "</p>" + tail;
    CloseTagAfterEscaped(e, tail);
    assert body[|e| + 4..] == tail && body[..|e|] == e;
  }

  /** The paragraphs read back as the escaped sentences, one block each, in order. */
  lemma {:induction false} ParagraphsRoundTrip(sentences: seq<string>)
    ensures Unwrap(Paragraphs(sentences)) == Some(EscapeAll(sentences))
  {
    if sentences != [] {
      var e := Escape(sentences[0]);
      ParagraphsRoundTrip(sentences[1..]);
      EscapeMeaning(sentences[0]);
      UnwrapBlock(e, Paragraphs(sentences[1..]));
      assert EscapeAll(sentences) == [e] + EscapeAll(sentences[1..]);
    }
  }

  // ---- markdown: headers and bold ----

  /** Where the line starting the text ends: its first line terminator, or the end. */
  function LineEnd(s: string): (e: nat)
    ensures e <= |s| && NoLineTerminator(s[..e]) && (e == |s| || IsLineTerminator(s[e]))
  {
    if s == [] || IsLineTerminator(s[0]) then 0
    else
      var e := LineEnd(s[1..]);
      assert s[..e + 1] == [s[0]] + s[1..][..e];
      e + 1
  }

  /** One line under `^<marker>(.*$)` → `<open>$1<close>`. */
  function RewriteLine(line: string, marker: string, open: string, close: string): string {
    if StartsWith(line, marker) then open + line[|marker|..] + close else line
  }

  /** `html.replace(/^<marker>(.*$)/gm, ...)`: every line rewritten on its own, terminators kept. */
  function HeaderPass(s: string, marker: string, open: string, close: string): string
    decreases |s|
  {
    var e := LineEnd(s);
    RewriteLine(s[..e], marker, open, close) + if e == |s| then "" else [s[e]] + HeaderPass(s[e + 1..], marker, open, close)
  }

  /** The three header passes, `###` first. */
  function Headers(s: string): string {
    HeaderPass(HeaderPass(HeaderPass(s, "### ", "<h3>", "</h3>"), "## ", "<h2>", "</h2>"), "# ", "<h1>", "</h1>")
  }

  lemma {:induction false} LineEndOfLine(a: string, rest: string)
    requires NoLineTerminator(a) && (rest == [] || IsLineTerminator(rest[0]))
    ensures LineEnd(a + rest) == |a|
  {
    var s := a + rest;
    if a != [] {
      assert s[0] == a[0] && !IsLineTerminator(s[0]);
      assert s[1..] == a[1..] + rest;
      assert NoLineTerminator(a[1..]) by {
        forall k | 0 <= k < |a| - 1 ensures !IsLineTerminator(a[1..][k]) {
          assert a[1..][k] == a[k + 1];
        }
      }
      LineEndOfLine(a[1..], rest);
      assert LineEnd(s) == LineEnd(s[1..]) + 1;
    } else {
      assert s == rest;
    }
  }

  /** The passes work line by line. */
  lemma HeaderPassLines(a: string, t: char, b: string, marker: string, open: string, close: string)
    requires NoLineTerminator(a) && IsLineTerminator(t)
    ensures HeaderPass(a + [t] + b, marker, open, close)
            == RewriteLine(a, marker, open, close) + [t] + HeaderPass(b, marker, open, close)
  {
    var s := a + [t] + b;
    LineEndOfLine(a, [t] + b);
    assert s == a + ([t] + b);
    assert s[..|a|] == a && s[|a|] == t && s[|a| + 1..] == b;
  }

  lemma HeaderPassLine(a: string, marker: string, open: string, close: string)
    requires NoLineTerminator(a)
    ensures HeaderPass(a, marker, open, close) == RewriteLine(a, marker, open, close)
  {
    LineEndOfLine(a, []);
    assert a + [] == a && a[..|a|] == a;
  }

  lemma TaggedLine(open: string, rest: string, close: string)
    requires NoLineTerminator(rest) && NoLineTerminator(open) && NoLineTerminator(close)
    ensures NoLineTerminator(open + rest + close)
  {
    var t := open + rest + close;
    assert forall c :: c in t ==> c in open || c in rest || c in close;
  }

  lemma MarkedLine(marker: string, rest: string)
    requires NoLineTerminator(rest) && NoLineTerminator(marker)
    ensures NoLineTerminator(marker + rest) && (marker + rest)[|marker|..] == rest
  {
    assert forall c :: c in marker + rest ==> c in marker || c in rest;
  }

  lemma RewriteMarked(marker: string, rest: string, open: string, close: string)
    ensures RewriteLine(marker + rest, marker, open, close) == open + rest + close
  {
    assert (marker + rest)[..|marker|] == marker && (marker + rest)[|marker|..] == rest;
  }

  lemma RewriteUntouched(line: string, marker: string, open: string, close: string)
    requires line != [] && marker != [] && line[0] != marker[0]
    ensures RewriteLine(line, marker, open, close) == line
  {
  }

  /** A single line starting with `### ` becomes an `h3` heading, which the later rules leave alone. */
  lemma ThirdLevelHeading(rest: string)
    requires NoLineTerminator(rest)
    ensures Headers("### " + rest) == "<h3>" + rest + "</h3>"
  {
    var line, h := "### " + rest, "<h3>" + rest + "</h3>";
    MarkedLine("### ", rest);
    TaggedLine("<h3>", rest, "</h3>");
    HeaderPassLine(line, "### ", "<h3>", "</h3>");
    RewriteMarked("### ", rest, "<h3>", "</h3>");
    HeaderPassLine(h, "## ", "<h2>", "</h2>");
    RewriteUntouched(h, "## ", "<h2>", "</h2>");
    HeaderPassLine(h, "# ", "<h1>", "</h1>");
    RewriteUntouched(h, "# ", "<h1>", "</h1>");
  }

  /** A single line starting with `## ` becomes an `h2` heading. */
  lemma SecondLevelHeading(rest: string)
    requires NoLineTerminator(rest)
    ensures Headers("## " + rest) == "<h2>" + rest + "</h2>"
  {
    var line, h := "## " + rest, "<h2>" + rest + "</h2>";
    MarkedLine("## ", rest);
    TaggedLine("<h2>", rest, "</h2>");
    HeaderPassLine(line, "### ", "<h3>", "</h3>");
    assert !StartsWith(line, "### ") by { assert line[2] == ' '; }
    HeaderPassLine(line, "## ", "<h2>", "</h2>");
    RewriteMarked("## ", rest, "<h2>", "</h2>");
    HeaderPassLine(h, "# ", "<h1>", "</h1>");
    RewriteUntouched(h, "# ", "<h1>", "</h1>");
  }

  /** A single line starting with `# ` becomes an `h1` heading. */
  lemma FirstLevelHeading(rest: string)
    requires NoLineTerminator(rest)
    ensures Headers("# " + rest) == "<h1>" + rest + "</h1>"
  {
    var line := "# " + rest;
    MarkedLine("# ", rest);
    HeaderPassLine(line, "### ", "<h3>", "</h3>");
    assert !StartsWith(line, "### ") by { assert line[1] == ' '; }
    HeaderPassLine(line, "## ", "<h2>", "</h2>");
    assert !StartsWith(line, "## ") by { assert line[1] == ' '; }
    HeaderPassLine(line, "# ", "<h1>", "</h1>");
    RewriteMarked("# ", rest, "<h1>", "</h1>");
  }

  /**
   * The lazy capture after an opening `**`, tried from index `j`: it ends at the first `**` that
   * no line terminator precedes.
   */
  function CloseFrom(t: string, j: nat): (r: Option<nat>)
    requires j <= |t|
    ensures r.Some? ==> j <= r.value && r.value + 2 <= |t| && OccursAt(t, "**", r.value)
    ensures r.Some? ==> forall k :: j <= k < r.value ==> !IsLineTerminator(t[k])
    ensures r.Some? ==> forall k :: j <= k < r.value ==> !OccursAt(t, "**", k)
    decreases |t| - j
  {
    if j + 2 > |t| then None
    else if OccursAt(t, "**", j) then Some(j)
    else if IsLineTerminator(t[j]) then None
    else CloseFrom(t, j + 1)
  }

  /** No closer found: every later "**" lies past a line terminator. */
  lemma {:induction false} CloseFromNone(t: string, j: nat)
    requires j <= |t| && CloseFrom(t, j).None?
    ensures forall k :: j <= k && OccursAt(t, "**", k) ==> !NoLineTerminator(t[j..k])
    decreases |t| - j
  {
    if j + 2 > |t| {
    } else if IsLineTerminator(t[j]) {
      TerminatorBlocks(t, j);
    } else {
      CloseFromNone(t, j + 1);
      BlockedFromNext(t, j);
    }
  }

  /** A line terminator at `j` stands between `j` and any later position. */
  lemma TerminatorBlocks(t: string, j: nat)
    requires j < |t| && IsLineTerminator(t[j])
    ensures forall k :: j < k <= |t| ==> !NoLineTerminator(t[j..k])
  {
    forall k | j < k <= |t| ensures !NoLineTerminator(t[j..k]) {
      assert t[j..k][0] == t[j];
    }
  }

  /** What is blocked from `j + 1` on is blocked from `j` on. */
  lemma BlockedFromNext(t: string, j: nat)
    requires j < |t|
    ensures forall k :: j + 1 <= k <= |t| && !NoLineTerminator(t[j + 1..k]) ==> !NoLineTerminator(t[j..k])
  {
    forall k | j + 1 <= k <= |t| && !NoLineTerminator(t[j + 1..k]) ensures !NoLineTerminator(t[j..k]) {
      var m :| 0 <= m < k - j - 1 && IsLineTerminator(t[j + 1..k][m]);
      assert t[j..k][m + 1] == t[j + 1..k][m];
    }
  }

  /** The global lazy bold replacement: each `**x**` pair within a line becomes `<strong>x</strong>`. */
  function Bold(s: string): string
    decreases |s|
  {
    if s == [] then []
    else if StartsWith(s, "**") && CloseFrom(s, 2).Some? then
      var j := CloseFrom(s, 2).value;
      "<strong>" + s[2..j] + "</strong>" + Bold(s[j + 2..])
    else [s[0]] + Bold(s[1..])
  }

  lemma {:induction false} FirstCloser(x: string, rest: string, j: nat)
    requires j <= |x| && '*' !in x && NoLineTerminator(x)
    ensures CloseFrom("**" + x + "**" + rest, j + 2) == Some(|x| + 2)
    decreases |x| - j
  {
    var t := "**" + x + "**" + rest;
    assert t[|x| + 2..|x| + 4] == "**";
    if j < |x| {
      assert t[j + 2] == x[j];
      assert !OccursAt(t, "**", j + 2);
      FirstCloser(x, rest, j + 1);
    }
  }

  /**
   * Bold is lazy: `**x**` with a star-free single-line `x` becomes `<strong>x</strong>`, closing at
   * the first `**` even when more follow.
   */
  lemma BoldFirstPair(x: string, rest: string)
    requires '*' !in x && NoLineTerminator(x)
    ensures Bold("**" + x + "**" + rest) == "<strong>" + x + "</strong>" + Bold(rest)
  {
    var s := "**" + x + "**" + rest;
    FirstCloser(x, rest, 0);
    assert s[..2] == "**";
    assert s[2..|x| + 2] == x && s[|x| + 4..] == rest;
  }

  /** A star-free start passes through unchanged. */
  lemma {:induction false} BoldStarFreePrefix(u: string, v: string)
    requires '*' !in u
    ensures Bold(u + v) == u + Bold(v)
  {
    if u != [] {
      var s := u + v;
      assert s[0] == u[0] && s[0] != '*' && s[1..] == u[1..] + v;
      assert !StartsWith(s, "**");
      BoldStarFreePrefix(u[1..], v);
      assert Bold(s) == [u[0]] + Bold(u[1..] + v);
      assert [u[0]] + u[1..] == u;
    } else {
      assert u + v == v;
    }
  }

  /** A star-free remainder holds no closing "**". */
  lemma {:induction false} StarFreeNoClose(t: string, j: nat)
    requires j <= |t| && forall k :: j <= k < |t| ==> t[k] != '*'
    ensures CloseFrom(t, j).None?
    decreases |t| - j
  {
    if j + 2 <= |t| {
      assert t[j..j + 2][0] == t[j];
      if !IsLineTerminator(t[j]) {
        StarFreeNoClose(t, j + 1);
      }
    }
  }

  /** A line terminator reached before any star ends the search. */
  lemma {:induction false} TerminatorNoClose(t: string, j: nat, m: nat)
    requires j <= m < |t| && IsLineTerminator(t[m]) && forall k :: j <= k <= m ==> t[k] != '*'
    ensures CloseFrom(t, j).None?
    decreases m - j
  {
    if j + 2 <= |t| {
      assert t[j..j + 2][0] == t[j];
      if j < m {
        TerminatorNoClose(t, j + 1, m);
      }
    }
  }

  /** An opening "**" with no closer is copied one star at a time. */
  lemma OpenerWithoutCloser(v: string)
    requires CloseFrom("**" + v, 2).None? && (v == [] || v[0] != '*')
    ensures Bold("**" + v) == "**" + Bold(v)
  {
    var s := "**" + v;
    var t := "*" + v;
    assert s[0] == '*' && s[1..] == t;
    assert Bold(s) == ['*'] + Bold(t);
    if v != [] {
      assert t[1] == v[0];
    }
    assert !StartsWith(t, "**");
    assert t[0] == '*' && t[1..] == v;
    assert Bold(t) == ['*'] + Bold(v);
  }

  /** No closing "**" after an opening one: the stars stay as they are. */
  lemma BoldUnclosed(x: string)
    requires '*' !in x
    ensures Bold("**" + x) == "**" + x
  {
    var s := "**" + x;
    forall k | 2 <= k < |s| ensures s[k] != '*' {
      assert s[k] == x[k - 2];
    }
    StarFreeNoClose(s, 2);
    OpenerWithoutCloser(x);
    BoldStarFreePrefix(x, []);
    assert x + [] == x;
  }

  /** The last two stars of a string, with nothing after them, stay as they are. */
  lemma BoldTrailingStars()
    ensures Bold("**") == "**"
  {
    StarFreeNoClose("**", 2);
    OpenerWithoutCloser([]);
  }

  lemma CrossLineNoClose(x: string, c: char, y: string)
    requires '*' !in x && IsLineTerminator(c)
    ensures CloseFrom("**" + x + [c] + y + "**", 2).None?
  {
    var s := "**" + x + [c] + y + "**";
    forall k | 2 <= k < |x| + 2 ensures s[k] != '*' {
      assert s[k] == x[k - 2];
    }
    assert s[|x| + 2] == c;
    TerminatorNoClose(s, 2, |x| + 2);
  }

  /**
   * The lazy capture cannot cross a line end: "**x" followed by a line terminator and "y**" is left
   * as it is, stars included.
   */
  lemma BoldAcrossLines(x: string, c: char, y: string)
    requires '*' !in x && '*' !in y && IsLineTerminator(c)
    ensures Bold("**" + x + [c] + y + "**") == "**" + x + [c] + y + "**"
  {
    var u := x + [c] + y;
    assert "**" + x + [c] + y + "**" == "**" + (u + "**");
    CrossLineNoClose(x, c, y);
    assert (u + "**")[0] == (if x == [] then c else x[0]);
    OpenerWithoutCloser(u + "**");
    BoldStarFreePrefix(u, "**");
    BoldTrailingStars();
  }

  /** Text without stars is left alone. */
  lemma {:induction false} BoldWithoutStars(s: string)
    requires '*' !in s
    ensures Bold(s) == s
  {
    if s != [] {
      assert s[0] != '*';
      BoldWithoutStars(s[1..]);
    }
  }

  /**
   * `parseMarkdown` up to its bold pass: nothing for empty input, then the header passes and the
   * bold pass in that order.
   */
  function MarkdownInline(markdown: string): (r: string)
    ensures markdown == [] ==> r == ""
  {
    if markdown == [] then "" else Bold(Headers(markdown))
  }

  // ---- formatTranscript ----

  /** The output: plain paragraphs, or the markdown rendering as far as it is modelled. */
  datatype Rendering = Plain(html: string) | Markdown(inline: string)

  /** The sentences the plain branch renders. */
  function SentencesOf(text: string): seq<string> {
    Sentences(SplitSentences(text).pieces)
  }

  function FormatTranscript(text: Option<string>): Rendering {
    if text.None? || text.value == [] then Plain("")
    else if Contains(text.value, "#") && Contains(text.value, "##") then Markdown(MarkdownInline(text.value))
    else Plain(Paragraphs(SentencesOf(text.value)))
  }

  /** An absent or empty transcript renders as nothing. */
  lemma FormatEmpty()
    ensures FormatTranscript(None) == Plain("") && FormatTranscript(Some("")) == Plain("")
  {
  }

  /** The markdown branch is taken exactly for text holding `##`, which already holds `#`. */
  lemma MarkdownBranchIff(text: string)
    ensures FormatTranscript(Some(text)).Markdown? <==> text != [] && Contains(text, "##")
  {
    if Contains(text, "##") {
      var i := IndexOf(text, "##").value;
      assert OccursAt(text, "##", i);
      assert text[i..i + 2][0] == '#';
      assert text[i..i + 1] == "#";
      ContainsAt(text, "#", i);
    }
  }

  /**
   * The plain branch renders each kept sentence, escaped, as its own `<p>` block, in order,
   * and nothing else.
   */
  lemma PlainBranch(text: string)
    requires text != [] && !Contains(text, "##")
    ensures FormatTranscript(Some(text)).Plain?
    ensures Unwrap(FormatTranscript(Some(text)).html) == Some(EscapeAll(SentencesOf(text)))
  {
    ParagraphsRoundTrip(SentencesOf(text));
  }
}

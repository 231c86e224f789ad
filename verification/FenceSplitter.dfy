/**
 Splitting a streamed response into plain text and whole fenced blocks
 (runtime/conversation/internal_callback_util.cc).

 The reference is `Parse`, which reads a complete text at once. The class `InternalCallback` is the
 streaming state machine; it is proved to send what `Parse` gives, for every chunking of the text.
 */
module FenceSplitter {
  import opened Wrappers

  datatype Fences = Fences(start: string, end: string)

  /** One call of `SendMessage`, labelled by the branch that made it. */
  datatype Piece =
    | Plain(text: string)     // text outside a fenced block
    | Block(text: string)     // a whole block, both fences included
    | Unclosed(text: string)  // the open block that is left when the response ends

  // ---------------------------------------------------------------------------------------------
  // Searching
  // ---------------------------------------------------------------------------------------------

  predicate OccursAt(s: string, pat: string, i: int) {
    0 <= i && i + |pat| <= |s| && s[i..i + |pat|] == pat
  }

  /** `std::string::find`: the first occurrence of `pat` at or after `from`. */
  function Find(s: string, pat: string, from: nat): (r: Option<nat>)
    ensures r.Some? ==> from <= r.value && OccursAt(s, pat, r.value)
    ensures r.Some? ==> forall j :: from <= j < r.value ==> !OccursAt(s, pat, j)
    ensures r.None? ==> forall j :: from <= j ==> !OccursAt(s, pat, j)
    decreases |s| - from
  {
    if from > |s| then None
    else if OccursAt(s, pat, from) then Some(from)
    else Find(s, pat, from + 1)
  }

  /** The suffix of `a` of length `n` is the prefix of `b` of length `n`. */
  predicate Overlaps(a: string, b: string, n: nat) {
    n <= |a| && n <= |b| && a[|a| - n..] == b[..n]
  }

  ghost predicate LongestOverlap(a: string, b: string, n: nat) {
    Overlaps(a, b, n) && forall m :: n < m ==> !Overlaps(a, b, m)
  }

  /** The longest suffix of `a` that is a prefix of `b`. */
  method SuffixPrefixOverlap(a: string, b: string) returns (n: nat)
    ensures LongestOverlap(a, b, n)
  {
    if a == "" || b == "" {
      return 0;
    }
    n := if |a| < |b| then |a| else |b|;
    while n > 0
      invariant n <= |a| && n <= |b|
      invariant forall m :: n < m ==> !Overlaps(a, b, m)
    {
      if a[|a| - n..] == b[..n] {
        return;
      }
      n := n - 1;
    }
  }

  lemma SliceAppend(s: string, t: string, n: nat)
    requires n <= |s|
    ensures (s + t)[..n] == s[..n]
    ensures (s + t)[n..] == s[n..] + t
  {
  }

  lemma OccursFits(s: string, pat: string, i: nat)
    requires OccursAt(s, pat, i)
    ensures i + |pat| <= |s|
  {
  }

  lemma OccursExtend(s: string, t: string, pat: string, i: nat)
    requires i + |pat| <= |s|
    ensures OccursAt(s + t, pat, i) <==> OccursAt(s, pat, i)
  {
    assert (s + t)[i..i + |pat|] == s[i..i + |pat|];
  }

  /** The first occurrence stays the first one when text is appended. */
  lemma FindExtend(s: string, t: string, pat: string, from: nat)
    requires Find(s, pat, from).Some?
    ensures Find(s + t, pat, from) == Find(s, pat, from)
  {
    var p := Find(s, pat, from).value;
    forall j | from <= j <= p
      ensures OccursAt(s + t, pat, j) <==> OccursAt(s, pat, j)
    {
      OccursExtend(s, t, pat, j);
    }
    assert OccursAt(s + t, pat, p);
    assert Find(s + t, pat, from).Some?;
    assert Find(s + t, pat, from).value <= p;
  }

  lemma OccursDrop(s: string, pat: string, d: nat, j: nat)
    requires d <= |s|
    ensures OccursAt(s[d..], pat, j) <==> OccursAt(s, pat, d + j)
  {
    if j + |pat| <= |s| - d {
      assert s[d..][j..j + |pat|] == s[d + j..d + j + |pat|];
    }
  }

  /** Searching from `d + from` is searching in what is left after dropping `d` characters. */
  lemma FindDrop(s: string, pat: string, d: nat, from: nat)
    requires d <= |s|
    ensures Find(s, pat, d + from) ==
            (match Find(s[d..], pat, from) case None => None case Some(p) => Some(d + p))
  {
    forall j: nat ensures OccursAt(s[d..], pat, j) <==> OccursAt(s, pat, d + j) {
      OccursDrop(s, pat, d, j);
    }
    var whole, rest := Find(s, pat, d + from), Find(s[d..], pat, from);
    if whole.Some? {
      assert OccursAt(s[d..], pat, whole.value - d);
    }
    if rest.Some? {
      assert OccursAt(s, pat, d + rest.value);
    }
  }

  lemma FindSkip(s: string, pat: string, d: nat)
    requires Find(s, pat, 0).Some?
    requires forall i :: 0 <= i < d ==> !OccursAt(s, pat, i)
    ensures Find(s, pat, d) == Find(s, pat, 0)
    ensures d <= Find(s, pat, 0).value <= |s|
  {
    assert Find(s, pat, d).Some?;
  }

  // ---------------------------------------------------------------------------------------------
  // The one-shot parse
  // ---------------------------------------------------------------------------------------------

  function PlainPiece(text: string): seq<Piece> {
    if text == "" then [] else [Plain(text)]
  }

  /** Splits a complete text. An empty start fence makes everything plain text. */
  function Parse(f: Fences, s: string): seq<Piece>
    decreases |s|, 1
  {
    if f.start == "" then PlainPiece(s)
    else
      match Find(s, f.start, 0)
      case None => PlainPiece(s)
      case Some(p) =>
        OccursDrop(s, f.start, p, 0);
        PlainPiece(s[..p]) + ParseBlock(f, s[p..])
  }

  /** Splits a complete text that begins with a start fence. */
  function ParseBlock(f: Fences, s: string): seq<Piece>
    requires f.start != "" && OccursAt(s, f.start, 0)
    decreases |s|, 0
  {
    match Find(s, f.end, |f.start|)
    case None => [Unclosed(s)]
    case Some(q) => [Block(s[..q + |f.end|])] + Parse(f, s[q + |f.end|..])
  }

  predicate CanParseFrom(f: Fences, inside: bool, s: string) {
    inside ==> f.start != "" && OccursAt(s, f.start, 0)
  }

  /** What is still to come from `s`, given whether `s` begins inside a block. */
  function ParseFrom(f: Fences, inside: bool, s: string): seq<Piece>
    requires CanParseFrom(f, inside, s)
  {
    if inside then ParseBlock(f, s) else Parse(f, s)
  }

  function Texts(ps: seq<Piece>): string {
    if ps == [] then "" else ps[0].text + Texts(ps[1..])
  }

  lemma {:induction false} TextsConcat(a: seq<Piece>, b: seq<Piece>)
    ensures Texts(a + b) == Texts(a) + Texts(b)
  {
    if a == [] {
      assert a + b == b;
    } else {
      TextsConcat(a[1..], b);
      assert (a + b)[1..] == a[1..] + b;
    }
  }

  /** Nothing is lost: the pieces put together are the text. */
  lemma {:induction false} ParseKeepsText(f: Fences, inside: bool, s: string)
    requires CanParseFrom(f, inside, s)
    ensures Texts(ParseFrom(f, inside, s)) == s
    decreases |s|, !inside
  {
    if inside {
      var q := Find(s, f.end, |f.start|);
      if q.Some? {
        var cut := q.value + |f.end|;
        ParseKeepsText(f, false, s[cut..]);
        TextsConcat([Block(s[..cut])], Parse(f, s[cut..]));
        assert s[..cut] + s[cut..] == s;
      }
    } else if f.start != "" && Find(s, f.start, 0).Some? {
      var p := Find(s, f.start, 0).value;
      OccursDrop(s, f.start, p, 0);
      ParseKeepsText(f, true, s[p..]);
      TextsConcat(PlainPiece(s[..p]), ParseBlock(f, s[p..]));
      assert s[..p] + s[p..] == s;
    }
  }

  // ---------------------------------------------------------------------------------------------
  // Equality up to joining adjacent plain pieces
  // ---------------------------------------------------------------------------------------------

  /** A plain character, or a block as one indivisible unit. */
  datatype Glyph = Ch(c: char) | Whole(piece: Piece)

  function Chars(text: string): seq<Glyph> {
    seq(|text|, i requires 0 <= i < |text| => Ch(text[i]))
  }

  function Glyphs(p: Piece): seq<Glyph> {
    if p.Plain? then Chars(p.text) else [Whole(p)]
  }

  function Flatten(ps: seq<Piece>): seq<Glyph> {
    if ps == [] then [] else Glyphs(ps[0]) + Flatten(ps[1..])
  }

  lemma {:induction false} FlattenConcat(a: seq<Piece>, b: seq<Piece>)
    ensures Flatten(a + b) == Flatten(a) + Flatten(b)
  {
    if a == [] {
      assert a + b == b;
    } else {
      FlattenConcat(a[1..], b);
      assert (a + b)[1..] == a[1..] + b;
    }
  }

  lemma FlattenPlain(text: string)
    ensures Flatten(PlainPiece(text)) == Chars(text)
    ensures Flatten([Plain(text)]) == Chars(text)
  {
    assert Flatten([Plain(text)]) == Chars(text) + Flatten([]);
  }

  /** Puts one piece in front, joining it to a plain piece that follows. */
  function Cons(p: Piece, ps: seq<Piece>): seq<Piece> {
    if p.Plain? && p.text == "" then ps
    else if p.Plain? && ps != [] && ps[0].Plain? then [Plain(p.text + ps[0].text)] + ps[1..]
    else [p] + ps
  }

  /** Joins adjacent plain pieces. */
  function Join(ps: seq<Piece>): seq<Piece> {
    if ps == [] then [] else Cons(ps[0], Join(ps[1..]))
  }

  /** No empty plain piece, and no two plain pieces in a row. */
  predicate Joined(ps: seq<Piece>) {
    && (forall i :: 0 <= i < |ps| && ps[i].Plain? ==> ps[i].text != "")
    && (forall i :: 0 <= i < |ps| - 1 && ps[i].Plain? ==> !ps[i + 1].Plain?)
  }

  lemma ConsFlatten(p: Piece, ps: seq<Piece>)
    requires Joined(ps)
    ensures Joined(Cons(p, ps))
    ensures Flatten(Cons(p, ps)) == Glyphs(p) + Flatten(ps)
  {
    hide Flatten, Joined;
    if p.Plain? && p.text == "" {
      assert Glyphs(p) == [];
    } else if p.Plain? && ps != [] && ps[0].Plain? {
      ConsJoins(p.text, ps);
    } else {
      FlattenOne(p, ps);
      JoinedOne(p, ps);
    }
  }

  lemma FlattenOne(p: Piece, ps: seq<Piece>)
    ensures Flatten([p] + ps) == Glyphs(p) + Flatten(ps)
  {
    assert ([p] + ps)[1..] == ps;
  }

  lemma JoinedOne(p: Piece, ps: seq<Piece>)
    requires Joined(ps) && (p.Plain? ==> p.text != "" && (ps == [] || !ps[0].Plain?))
    ensures Joined([p] + ps)
  {
    var all := [p] + ps;
    assert forall i :: 0 < i < |all| ==> all[i] == ps[i - 1];
  }

  lemma ConsJoins(text: string, ps: seq<Piece>)
    requires Joined(ps) && text != "" && ps != [] && ps[0].Plain?
    ensures Joined([Plain(text + ps[0].text)] + ps[1..])
    ensures Flatten([Plain(text + ps[0].text)] + ps[1..]) == Chars(text) + Flatten(ps)
  {
    hide Flatten;
    var first, rest := ps[0], ps[1..];
    assert forall i :: 0 <= i < |rest| ==> rest[i] == ps[i + 1];
    JoinedOne(Plain(text + first.text), rest);
    FlattenOne(Plain(text + first.text), rest);
    FlattenOne(first, rest);
    assert [first] + rest == ps;
    assert Chars(text + first.text) == Chars(text) + Chars(first.text);
  }

  lemma {:induction false} JoinFlatten(ps: seq<Piece>)
    ensures Joined(Join(ps))
    ensures Flatten(Join(ps)) == Flatten(ps)
  {
    if ps != [] {
      JoinFlatten(ps[1..]);
      ConsFlatten(ps[0], Join(ps[1..]));
    }
  }

  lemma FlattenNonempty(a: seq<Piece>)
    requires Joined(a)
    ensures Flatten(a) == [] ==> a == []
  {
    if a != [] {
      assert |Glyphs(a[0])| > 0;
    }
  }

  /** A leading plain piece ends where the glyphs do, or at a whole block. */
  lemma PlainPieceEnds(a: seq<Piece>)
    requires Joined(a) && a != [] && a[0].Plain?
    ensures var n := |a[0].text|;
            |Flatten(a)| >= n && (n < |Flatten(a)| ==> Flatten(a)[n].Whole?)
  {
    if |a| > 1 {
      assert Flatten(a[1..])[0] == Whole(a[1]);
    }
  }

  lemma FlattenLongPlain(a: seq<Piece>, b: seq<Piece>)
    requires Joined(a) && Joined(b) && a != [] && b != [] && a[0].Plain? && b[0].Plain?
    requires Flatten(a) == Flatten(b)
    ensures |a[0].text| >= |b[0].text|
  {
    PlainPieceEnds(a);
    assert forall k :: 0 <= k < |b[0].text| ==> Flatten(b)[k] == Ch(b[0].text[k]);
  }

  /** Joined pieces are determined by their glyphs. */
  lemma {:induction false} FlattenInjective(a: seq<Piece>, b: seq<Piece>)
    requires Joined(a) && Joined(b)
    requires Flatten(a) == Flatten(b)
    ensures a == b
    decreases |a|
  {
    FlattenNonempty(a);
    FlattenNonempty(b);
    if a != [] {
      assert Flatten(a)[0] == Glyphs(a[0])[0] && Flatten(b)[0] == Glyphs(b[0])[0];
      if a[0].Plain? {
        FlattenLongPlain(a, b);
        FlattenLongPlain(b, a);
        var n := |a[0].text|;
        forall i | 0 <= i < n ensures a[0].text[i] == b[0].text[i] {
          assert Flatten(a)[i] == Ch(a[0].text[i]) && Flatten(b)[i] == Ch(b[0].text[i]);
        }
        assert a[0].text == b[0].text;
      }
      var n := |Glyphs(a[0])|;
      assert Flatten(a[1..]) == Flatten(a)[n..] == Flatten(b)[n..] == Flatten(b[1..]);
      FlattenInjective(a[1..], b[1..]);
      assert a == [a[0]] + a[1..] && b == [b[0]] + b[1..];
    }
  }

  lemma {:induction false} ParseJoined(f: Fences, inside: bool, s: string)
    requires CanParseFrom(f, inside, s)
    ensures Joined(ParseFrom(f, inside, s))
    ensures inside ==> !ParseFrom(f, inside, s)[0].Plain?
    decreases |s|, !inside
  {
    if inside {
      var q := Find(s, f.end, |f.start|);
      if q.Some? {
        ParseJoined(f, false, s[q.value + |f.end|..]);
      }
    } else if f.start != "" && Find(s, f.start, 0).Some? {
      var p := Find(s, f.start, 0).value;
      OccursDrop(s, f.start, p, 0);
      ParseJoined(f, true, s[p..]);
    }
  }

  lemma ParseToFence(f: Fences, s: string, p: nat)
    requires f.start != "" && Find(s, f.start, 0) == Some(p)
    ensures CanParseFrom(f, true, s[p..])
    ensures Parse(f, s) == PlainPiece(s[..p]) + ParseBlock(f, s[p..])
  {
    hide ParseBlock, PlainPiece;
    OccursDrop(s, f.start, p, 0);
  }

  lemma ParseToBlockEnd(f: Fences, s: string, q: nat)
    requires CanParseFrom(f, true, s) && Find(s, f.end, |f.start|) == Some(q)
    ensures q + |f.end| <= |s|
    ensures ParseBlock(f, s) == [Block(s[..q + |f.end|])] + Parse(f, s[q + |f.end|..])
  {
    hide Parse;
  }

  // ---------------------------------------------------------------------------------------------
  // What a parse is, without saying how it is found
  // ---------------------------------------------------------------------------------------------

  /**
   Every block begins with a start fence and ends with the first end fence after it; an unclosed
   block has no end fence and comes last; no start fence begins inside plain text, even one that
   would run on into the piece that follows.
   */
  predicate WellSplit(f: Fences, ps: seq<Piece>) {
    if ps == [] then true
    else
      match ps[0]
      case Plain(text) =>
        && text != ""
        && (f.start == "" ==> |ps| == 1)
        && (f.start != "" ==> Find(Texts(ps), f.start, 0) == if |ps| == 1 then None else Some(|text|))
        && (|ps| > 1 ==> !ps[1].Plain?)
        && WellSplit(f, ps[1..])
      case Block(text) =>
        && f.start != "" && OccursAt(text, f.start, 0)
        && |f.start| + |f.end| <= |text|
        && Find(text, f.end, |f.start|) == Some(|text| - |f.end|)
        && WellSplit(f, ps[1..])
      case Unclosed(text) =>
        && f.start != "" && OccursAt(text, f.start, 0)
        && Find(text, f.end, |f.start|).None?
        && |ps| == 1
  }

  lemma FindCut(s: string, pat: string, from: nat, p: nat)
    requires Find(s, pat, from) == Some(p)
    ensures p + |pat| <= |s| && Find(s[..p + |pat|], pat, from) == Some(p)
  {
    hide Find;
    OccursFits(s, pat, p);
    var t := s[..p + |pat|];
    assert t + s[p + |pat|..] == s;
    forall j | from <= j <= p ensures OccursAt(t, pat, j) <==> OccursAt(s, pat, j) {
      OccursExtend(t, s[p + |pat|..], pat, j);
    }
    assert Find(t, pat, from).Some?;
  }

  lemma {:induction false} ParseIsWellSplit(f: Fences, inside: bool, s: string)
    requires CanParseFrom(f, inside, s)
    ensures WellSplit(f, ParseFrom(f, inside, s))
    decreases |s|, !inside
  {
    hide Find, Texts;
    if inside {
      var q := Find(s, f.end, |f.start|);
      if q.Some? {
        FindCut(s, f.end, |f.start|, q.value);
        var cut := q.value + |f.end|;
        assert s[..cut] + s[cut..] == s;
        OccursExtend(s[..cut], s[cut..], f.start, 0);
        ParseIsWellSplit(f, false, s[cut..]);
      }
    } else if f.start != "" && Find(s, f.start, 0).Some? {
      var p := Find(s, f.start, 0).value;
      ParseToFence(f, s, p);
      ParseIsWellSplit(f, true, s[p..]);
      ParseKeepsText(f, false, s);
      ParseJoined(f, true, s[p..]);
      OccursFits(s, f.start, p);
      assert Parse(f, s) == if p == 0 then ParseBlock(f, s[p..]) else [Plain(s[..p])] + ParseBlock(f, s[p..]);
    } else if s != "" {
      ParseKeepsText(f, false, s);
    }
  }

  lemma ParseStartsBlock(f: Fences, s: string)
    requires f.start != "" && OccursAt(s, f.start, 0)
    ensures Parse(f, s) == ParseBlock(f, s)
  {
    hide ParseBlock;
    assert s[0..] == s;
  }

  lemma WellSplitBlockFirst(f: Fences, ps: seq<Piece>)
    requires WellSplit(f, ps) && ps != [] && !ps[0].Plain?
    ensures f.start != "" && OccursAt(Texts(ps), f.start, 0)
  {
    hide Find;
    OccursFits(ps[0].text, f.start, 0);
    OccursExtend(ps[0].text, Texts(ps[1..]), f.start, 0);
  }

  lemma PlainThenBlock(f: Fences, text: string, rest: string, ps: seq<Piece>)
    requires f.start != "" && Find(text + rest, f.start, 0) == Some(|text|) && text != ""
    requires Parse(f, rest) == ps && OccursAt(rest, f.start, 0)
    ensures Parse(f, text + rest) == [Plain(text)] + ps
  {
    hide Find, Parse, ParseBlock;
    var s := text + rest;
    assert s[|text|..] == rest && s[..|text|] == text;
    ParseToFence(f, s, |text|);
    ParseStartsBlock(f, rest);
  }

  lemma BlockThenRest(f: Fences, text: string, rest: string, ps: seq<Piece>)
    requires f.start != "" && OccursAt(text, f.start, 0) && |f.start| + |f.end| <= |text|
    requires Find(text, f.end, |f.start|) == Some(|text| - |f.end|)
    requires Parse(f, rest) == ps
    ensures Parse(f, text + rest) == [Block(text)] + ps
  {
    hide Find, Parse, ParseBlock;
    var s := text + rest;
    assert s[|text|..] == rest && s[..|text|] == text;
    OccursFits(text, f.start, 0);
    OccursExtend(text, rest, f.start, 0);
    ParseStartsBlock(f, s);
    FindExtend(text, rest, f.end, |f.start|);
    ParseToBlockEnd(f, s, |text| - |f.end|);
  }

  lemma UnclosedAlone(f: Fences, text: string)
    requires f.start != "" && OccursAt(text, f.start, 0) && Find(text, f.end, |f.start|).None?
    ensures Parse(f, text) == [Unclosed(text)]
  {
    hide Parse;
    ParseStartsBlock(f, text);
  }

  lemma PlainAlone(f: Fences, text: string)
    requires text != "" && (f.start != "" ==> Find(text, f.start, 0).None?)
    ensures Parse(f, text) == [Plain(text)]
  {
    hide Find;
  }

  lemma TextsFirst(ps: seq<Piece>)
    requires ps != []
    ensures Texts(ps) == ps[0].text + Texts(ps[1..])
    ensures |ps| == 1 ==> Texts(ps) == ps[0].text
  {
  }

  lemma PlainFirst(f: Fences, ps: seq<Piece>)
    requires WellSplit(f, ps) && ps != [] && ps[0].Plain? && Parse(f, Texts(ps[1..])) == ps[1..]
    ensures Parse(f, Texts(ps)) == ps
  {
    hide Find, Parse, Texts;
    TextsFirst(ps);
    if |ps| == 1 {
      PlainAlone(f, ps[0].text);
    } else {
      WellSplitBlockFirst(f, ps[1..]);
      PlainThenBlock(f, ps[0].text, Texts(ps[1..]), ps[1..]);
    }
  }

  lemma BlockFirst(f: Fences, ps: seq<Piece>)
    requires WellSplit(f, ps) && ps != [] && ps[0].Block? && Parse(f, Texts(ps[1..])) == ps[1..]
    ensures Parse(f, Texts(ps)) == ps
  {
    hide Find, Parse, Texts;
    TextsFirst(ps);
    BlockThenRest(f, ps[0].text, Texts(ps[1..]), ps[1..]);
  }

  lemma UnclosedFirst(f: Fences, ps: seq<Piece>)
    requires WellSplit(f, ps) && ps != [] && ps[0].Unclosed?
    ensures Parse(f, Texts(ps)) == ps
  {
    hide Find, Parse, Texts;
    TextsFirst(ps);
    UnclosedAlone(f, ps[0].text);
  }

  /** A well-split text is the one-shot parse of itself, so the parse is the only one. */
  lemma {:induction false} WellSplitIsParse(f: Fences, ps: seq<Piece>)
    requires WellSplit(f, ps)
    ensures Parse(f, Texts(ps)) == ps
    decreases |ps|
  {
    if ps == [] {
      assert Parse(f, "") == [];
    } else {
      hide Find, Parse, Texts;
      WellSplitIsParse(f, ps[1..]);
      match ps[0]
      case Plain(_) => PlainFirst(f, ps);
      case Block(_) => BlockFirst(f, ps);
      case Unclosed(_) => UnclosedFirst(f, ps);
    }
  }

  // ---------------------------------------------------------------------------------------------
  // Steps: how the parse of a text, followed by anything, begins
  // ---------------------------------------------------------------------------------------------

  /** Parsing `s + t` gives `ps`, and then what parsing `s' + t` gives. */
  ghost predicate Step(f: Fences, inside: bool, s: string, ps: seq<Piece>, inside': bool, s': string, t: string) {
    && CanParseFrom(f, inside, s + t)
    && CanParseFrom(f, inside', s' + t)
    && Flatten(ParseFrom(f, inside, s + t)) == Flatten(ps) + Flatten(ParseFrom(f, inside', s' + t))
  }

  /** A start fence at `p` is found whatever follows; the text before it is plain. */
  lemma StepToFence(f: Fences, s: string, p: nat, t: string)
    requires f.start != "" && Find(s, f.start, 0) == Some(p)
    ensures Step(f, false, s, PlainPiece(s[..p]), true, s[p..], t)
  {
    hide Flatten, PlainPiece, Parse, ParseBlock;
    FindExtend(s, t, f.start, 0);
    ParseToFence(f, s + t, p);
    SliceAppend(s, t, p);
    FlattenConcat(PlainPiece(s[..p]), ParseBlock(f, s[p..] + t));
  }

  /** An end fence that is found stays where it is, whatever follows. */
  lemma StepToBlockEnd(f: Fences, s: string, q: nat, t: string)
    requires CanParseFrom(f, true, s) && Find(s, f.end, |f.start|) == Some(q)
    ensures q + |f.end| <= |s|
    ensures Step(f, true, s, [Block(s[..q + |f.end|])], false, s[q + |f.end|..], t)
  {
    hide Flatten, Parse, ParseBlock, OccursAt, Find;
    OccursFits(s, f.start, 0);
    OccursExtend(s, t, f.start, 0);
    FindExtend(s, t, f.end, |f.start|);
    OccursFits(s, f.end, q);
    var cut := q + |f.end|;
    ParseToBlockEnd(f, s + t, q);
    SliceAppend(s, t, cut);
    FlattenConcat([Block(s[..cut])], Parse(f, s[cut..] + t));
  }

  /** Text in which no fence can begin is plain. */
  lemma StepOverPlain(f: Fences, s: string, d: nat, t: string)
    requires d <= |s|
    requires f.start == "" || forall i :: 0 <= i < d ==> !OccursAt(s + t, f.start, i)
    ensures Step(f, false, s, PlainPiece(s[..d]), false, s[d..], t)
  {
    var whole := s + t;
    assert whole[..d] == s[..d];
    assert whole[d..] == s[d..] + t;
    if f.start == "" || Find(whole, f.start, 0).None? {
      NoFenceParse(f, whole, d);
    } else {
      FenceAfterPlainParse(f, whole, d);
    }
  }

  lemma CharsSplit(s: string, d: nat)
    requires d <= |s|
    ensures Chars(s) == Chars(s[..d]) + Chars(s[d..])
  {
  }

  lemma PlainSplit(s: string, d: nat)
    requires d <= |s|
    ensures Flatten(PlainPiece(s)) == Flatten(PlainPiece(s[..d])) + Flatten(PlainPiece(s[d..]))
  {
    hide Flatten, PlainPiece, Chars;
    FlattenPlain(s);
    FlattenPlain(s[..d]);
    FlattenPlain(s[d..]);
    CharsSplit(s, d);
  }

  lemma NoFenceParse(f: Fences, s: string, d: nat)
    requires d <= |s|
    requires f.start == "" || Find(s, f.start, 0).None?
    ensures Flatten(Parse(f, s)) == Flatten(PlainPiece(s[..d])) + Flatten(Parse(f, s[d..]))
  {
    hide Flatten, PlainPiece;
    PlainSplit(s, d);
    if f.start != "" {
      FindDrop(s, f.start, d, 0);
      assert Find(s, f.start, d).None?;
    }
  }

  lemma FenceAfterPlainParse(f: Fences, s: string, d: nat)
    requires d <= |s|
    requires f.start != "" && Find(s, f.start, 0).Some?
    requires forall i :: 0 <= i < d ==> !OccursAt(s, f.start, i)
    ensures Flatten(Parse(f, s)) == Flatten(PlainPiece(s[..d])) + Flatten(Parse(f, s[d..]))
  {
    hide Flatten, PlainPiece, ParseBlock, Parse, Find, OccursAt;
    var p := Find(s, f.start, 0).value;
    FindSkip(s, f.start, d);
    FindDrop(s, f.start, d, 0);
    var rest := s[d..];
    ParseToFence(f, s, p);
    ParseToFence(f, rest, p - d);
    assert rest[..p - d] == s[..p][d..];
    assert rest[p - d..] == s[p..];
    assert s[..p][..d] == s[..d];
    PlainSplit(s[..p], d);
    FlattenConcat(PlainPiece(s[..p]), ParseBlock(f, s[p..]));
    FlattenConcat(PlainPiece(rest[..p - d]), ParseBlock(f, s[p..]));
  }

  /** An occurrence that runs past the end of `s` shows as an overlap there. */
  lemma PartialOverlap(s: string, t: string, start: string, i: nat)
    requires i < |s| < i + |start| && OccursAt(s + t, start, i)
    ensures Overlaps(s, start, |s| - i)
  {
    var m, all := |s| - i, s + t;
    assert all[i..i + |start|] == start;
    assert start[..m] == all[i..i + m];
    assert s[i..] == all[i..i + m];
  }

  /** After an unsuccessful search, a fence can only begin in the longest overlap at the end. */
  lemma NoFenceBeforeOverlap(s: string, t: string, start: string, n: nat, i: nat)
    requires start != "" && Find(s, start, 0).None?
    requires LongestOverlap(s, start, n)
    requires i < |s| - n
    ensures !OccursAt(s + t, start, i)
  {
    if OccursAt(s + t, start, i) {
      if i + |start| <= |s| {
        OccursExtend(s, t, start, i);
      } else {
        PartialOverlap(s, t, start, i);
      }
    }
  }

  // ---------------------------------------------------------------------------------------------
  // The streaming state machine
  // ---------------------------------------------------------------------------------------------

  datatype Response =
    | Error(cancelled: bool)
    | Finished                         // kDone or kMaxNumTokensReached
    | Processing(texts: seq<string>)
    | OtherState                       // every other task state

  /** One call of a callback, in the order the callbacks are invoked. */
  datatype Call =
    | Send(piece: Piece)       // user_callback with ToMessage(piece.text), or with its error
    | Complete(text: string)   // complete_message_callback with ToMessage(text)
    | End                      // user_callback with the empty message
    | Failed                   // user_callback with an error status
    | CancelCalled             // cancel_callback

  /** The last calls report the complete text and the end, or an error. */
  predicate Completed(calls: seq<Call>, toMessageOk: string -> bool, text: string) {
    if toMessageOk(text) then |calls| >= 2 && calls[|calls| - 2..] == [Complete(text), End]
    else calls != [] && calls[|calls| - 1] == Failed
  }

  /** `after` adds only sent pieces to `before`. */
  predicate SentOnly(before: seq<Call>, after: seq<Call>) {
    before <= after && forall i :: |before| <= i < |after| ==> after[i].Send?
  }

  /** The pieces sent, in order. */
  function Sent(calls: seq<Call>): seq<Piece> {
    if calls == [] then []
    else Sent(calls[..|calls| - 1]) +
         (if calls[|calls| - 1].Send? then [calls[|calls| - 1].piece] else [])
  }

  lemma SentSnoc(calls: seq<Call>, c: Call)
    ensures c.Send? ==> Sent(calls + [c]) == Sent(calls) + [c.piece]
    ensures !c.Send? ==> Sent(calls + [c]) == Sent(calls)
  {
    assert (calls + [c])[..|calls|] == calls;
  }

  /**
   What was sent, then what is still to come from the text held back, is the one-shot parse: for
   every continuation of the response.
   */
  ghost predicate Refines(f: Fences, sent: seq<Piece>, text: string, inside: bool, held: string) {
    forall t: string :: RefinesWith(f, sent, text, inside, held, t)
  }

  ghost predicate RefinesWith(f: Fences, sent: seq<Piece>, text: string, inside: bool, held: string, t: string) {
    && CanParseFrom(f, inside, held + t)
    && Flatten(sent) + Flatten(ParseFrom(f, inside, held + t)) == Flatten(Parse(f, text + t))
  }

  /** No continuation can make a start fence begin in `[from, to)`. */
  ghost predicate NoFenceIn(f: Fences, text: string, from: nat, to: nat) {
    f.start == "" || forall t: string, i | from <= i < to :: !OccursAt(text + t, f.start, i)
  }

  /** Nothing more can be sent: what is held back is an open block, or a proper part of a start fence. */
  predicate Drained(f: Fences, inside: bool, held: string) {
    held != "" ==>
      if inside then Find(held, f.end, |f.start|).None?
      else |held| < |f.start| && held == f.start[..|held|]
  }

  lemma RefinesAppend(f: Fences, sent: seq<Piece>, text: string, inside: bool, held: string, more: string)
    requires Refines(f, sent, text, inside, held)
    ensures Refines(f, sent, text + more, inside, held + more)
  {
    hide CanParseFrom, ParseFrom, Parse, Flatten;
    var text', held' := text + more, held + more;
    forall t: string ensures RefinesWith(f, sent, text', inside, held', t) {
      assert RefinesWith(f, sent, text, inside, held, more + t);
      assert held' + t == held + (more + t);
      assert text' + t == text + (more + t);
    }
  }

  lemma NoFenceInAppend(f: Fences, text: string, more: string, from: nat, to: nat)
    requires NoFenceIn(f, text, from, to)
    ensures NoFenceIn(f, text + more, from, to)
  {
    if f.start != "" {
      forall t: string, i | from <= i < to ensures !OccursAt(text + more + t, f.start, i) {
        assert text + more + t == text + (more + t);
      }
    }
  }

  /** Sending the pieces of a step keeps the refinement. */
  lemma RefinesStep(f: Fences, sent: seq<Piece>, text: string, inside: bool, held: string,
                    ps: seq<Piece>, inside': bool, held': string)
    requires Refines(f, sent, text, inside, held)
    requires forall t: string :: Step(f, inside, held, ps, inside', held', t)
    ensures Refines(f, sent + ps, text, inside', held')
  {
    hide CanParseFrom, ParseFrom, Parse, Flatten;
    var sent' := sent + ps;
    forall t: string ensures RefinesWith(f, sent', text, inside', held', t) {
      assert RefinesWith(f, sent, text, inside, held, t);
      assert Step(f, inside, held, ps, inside', held', t);
      FlattenConcat(sent, ps);
    }
  }

  lemma RefinesToFence(f: Fences, sent: seq<Piece>, text: string, held: string, p: nat)
    requires Refines(f, sent, text, false, held)
    requires f.start != "" && Find(held, f.start, 0) == Some(p)
    ensures Refines(f, sent + PlainPiece(held[..p]), text, true, held[p..])
  {
    hide Step, Refines, PlainPiece;
    var ps, held' := PlainPiece(held[..p]), held[p..];
    forall t: string ensures Step(f, false, held, ps, true, held', t) {
      StepToFence(f, held, p, t);
    }
    RefinesStep(f, sent, text, false, held, ps, true, held');
  }

  lemma RefinesToBlockEnd(f: Fences, sent: seq<Piece>, text: string, held: string, q: nat)
    requires Refines(f, sent, text, true, held)
    requires CanParseFrom(f, true, held) && Find(held, f.end, |f.start|) == Some(q)
    ensures Refines(f, sent + [Block(held[..q + |f.end|])], text, false, held[q + |f.end|..])
  {
    hide Step, Refines, CanParseFrom;
    var ps, held' := [Block(held[..q + |f.end|])], held[q + |f.end|..];
    forall t: string ensures Step(f, true, held, ps, false, held', t) {
      StepToBlockEnd(f, held, q, t);
    }
    RefinesStep(f, sent, text, true, held, ps, false, held');
  }

  /** When no start fence is found, everything before the longest overlap may be sent. */
  lemma RefinesToOverlap(f: Fences, sent: seq<Piece>, text: string, held: string, n: nat)
    requires Refines(f, sent, text, false, held)
    requires f.start == "" || Find(held, f.start, 0).None?
    requires LongestOverlap(held, f.start, n)
    ensures Refines(f, sent + PlainPiece(held[..|held| - n]), text, false, held[|held| - n..])
  {
    hide Step, Refines, PlainPiece, OccursAt;
    var d := |held| - n;
    var ps, held' := PlainPiece(held[..d]), held[d..];
    forall t: string ensures Step(f, false, held, ps, false, held', t) {
      forall i | f.start != "" && 0 <= i < d ensures !OccursAt(held + t, f.start, i) {
        NoFenceBeforeOverlap(held, t, f.start, n, i);
      }
      StepOverPlain(f, held, d, t);
    }
    RefinesStep(f, sent, text, false, held, ps, false, held');
  }

  lemma NoFenceInJoin(f: Fences, text: string, from: nat, mid: nat, to: nat)
    requires NoFenceIn(f, text, from, mid) && NoFenceIn(f, text, mid, to)
    ensures NoFenceIn(f, text, from, to)
  {
  }

  lemma NoFenceInNothing(f: Fences, text: string, at: nat)
    ensures NoFenceIn(f, text, at, at)
  {
  }

  /** The overlap found after an unsuccessful search is a proper part of a fence. */
  lemma OverlapIsPartial(held: string, start: string, n: nat)
    requires start == "" || Find(held, start, 0).None?
    requires LongestOverlap(held, start, n)
    ensures n > 0 ==> n < |start|
    ensures held[|held| - n..] == start[..n]
  {
    if n == |start| && n > 0 {
      WholeOverlap(held, start);
    }
  }

  lemma WholeOverlap(held: string, start: string)
    requires Overlaps(held, start, |start|)
    ensures OccursAt(held, start, |held| - |start|)
  {
    assert start[..|start|] == start;
  }

  lemma NoFenceInToOverlap(f: Fences, text: string, cursor: nat, n: nat)
    requires cursor <= |text|
    requires f.start == "" || Find(text[cursor..], f.start, 0).None?
    requires LongestOverlap(text[cursor..], f.start, n)
    ensures NoFenceIn(f, text, cursor, |text| - n)
  {
    hide Overlaps;
    if f.start != "" {
      var held := text[cursor..];
      forall t: string, i | cursor <= i < |text| - n ensures !OccursAt(text + t, f.start, i) {
        assert (text + t)[cursor..] == held + t;
        NoFenceBeforeOverlap(held, t, f.start, n, i - cursor);
        OccursDrop(text + t, f.start, cursor, i - cursor);
      }
    }
  }

  /** At the end of the response, sending what is held back completes the parse. */
  lemma RefinesAtEnd(f: Fences, sent: seq<Piece>, text: string, inside: bool, held: string)
    requires Refines(f, sent, text, inside, held) && Drained(f, inside, held)
    ensures Join(sent + HeldPiece(inside, held)) == Parse(f, text)
  {
    hide Join, Flatten, Parse, PlainPiece;
    assert RefinesWith(f, sent, text, inside, held, "");
    assert held + "" == held && text + "" == text;
    HeldParse(f, inside, held);
    var all := sent + HeldPiece(inside, held);
    FlattenConcat(sent, HeldPiece(inside, held));
    JoinFlatten(all);
    ParseJoined(f, false, text);
    FlattenInjective(Join(all), Parse(f, text));
  }

  lemma HeldParse(f: Fences, inside: bool, held: string)
    requires CanParseFrom(f, inside, held) && Drained(f, inside, held)
    ensures HeldPiece(inside, held) == ParseFrom(f, inside, held)
  {
  }

  /** The piece sent by `SendCompleteMessage`, if anything is held back. */
  function HeldPiece(inside: bool, held: string): seq<Piece> {
    if held == "" then [] else if inside then [Unclosed(held)] else [Plain(held)]
  }

  // --- the invariant of the state machine, on values ---

  /** The length of the plain text at the end of what was sent, back to the last block. */
  function PlainRun(sent: seq<Piece>): nat {
    if sent == [] || !sent[|sent| - 1].Plain? then 0
    else PlainRun(sent[..|sent| - 1]) + |sent[|sent| - 1].text|
  }

  /** What was sent is the text up to the cursor, refines the one-shot parse, and was safe to send. */
  ghost predicate Safe(f: Fences, sent: seq<Piece>, text: string, cursor: nat, inside: bool) {
    && PlainRun(sent) <= cursor <= |text|
    && Texts(sent) == text[..cursor]
    && (inside ==> cursor < |text|)
    && CanParseFrom(f, inside, text[cursor..])
    && Refines(f, sent, text, inside, text[cursor..])
    && (!inside ==> NoFenceIn(f, text, cursor - PlainRun(sent), cursor))
  }

  lemma SafeBounds(f: Fences, sent: seq<Piece>, text: string, cursor: nat, inside: bool)
    requires Safe(f, sent, text, cursor, inside)
    ensures cursor <= |text| && (inside ==> cursor < |text|)
  {
  }

  lemma SafeAtStart(f: Fences)
    ensures Safe(f, [], "", 0, false)
    ensures Drained(f, false, "")
  {
    hide Parse;
    forall t: string ensures RefinesWith(f, [], "", false, "", t) {
      assert "" + t == t;
    }
  }

  lemma SafeAppend(f: Fences, sent: seq<Piece>, text: string, cursor: nat, inside: bool, more: string)
    requires Safe(f, sent, text, cursor, inside)
    ensures Safe(f, sent, text + more, cursor, inside)
  {
    hide Refines, NoFenceIn, OccursAt, PlainRun, Texts;
    assert (text + more)[cursor..] == text[cursor..] + more;
    assert (text + more)[..cursor] == text[..cursor];
    RefinesAppend(f, sent, text, inside, text[cursor..], more);
    if inside {
      OccursFits(text[cursor..], f.start, 0);
      OccursExtend(text[cursor..], more, f.start, 0);
    } else {
      NoFenceInAppend(f, text, more, cursor - PlainRun(sent), cursor);
    }
  }

  /** Sending `ps`, the text between `cursor` and `to`. */
  lemma SendText(sent: seq<Piece>, text: string, cursor: nat, to: nat, p: Piece)
    requires cursor <= to <= |text|
    requires Texts(sent) == text[..cursor] && p.text == text[cursor..to]
    ensures Texts(sent + [p]) == text[..to]
    ensures Texts(sent + PlainPiece(text[cursor..to])) == text[..to]
    ensures PlainRun(sent + [p]) == if p.Plain? then PlainRun(sent) + |p.text| else 0
    ensures PlainRun(sent + PlainPiece(text[cursor..to])) == PlainRun(sent) + (to - cursor)
  {
    hide Texts, PlainRun, PlainPiece;
    var plain := PlainPiece(text[cursor..to]);
    TextsConcat(sent, [p]);
    TextsConcat(sent, plain);
    TextsOfOne(p);
    TextsOfPlain(text[cursor..to]);
    assert text[..cursor] + text[cursor..to] == text[..to];
    PlainRunSnoc(sent, p);
    PlainRunPlain(sent, text[cursor..to]);
  }

  lemma TextsOfOne(p: Piece)
    ensures Texts([p]) == p.text
  {
  }

  lemma TextsOfPlain(text: string)
    ensures Texts(PlainPiece(text)) == text
  {
  }

  lemma PlainRunSnoc(sent: seq<Piece>, p: Piece)
    ensures PlainRun(sent + [p]) == if p.Plain? then PlainRun(sent) + |p.text| else 0
  {
    assert (sent + [p])[..|sent|] == sent;
  }

  lemma PlainRunPlain(sent: seq<Piece>, text: string)
    ensures PlainRun(sent + PlainPiece(text)) == PlainRun(sent) + |text|
  {
    if text == "" {
      assert sent + [] == sent;
    } else {
      PlainRunSnoc(sent, Plain(text));
    }
  }

  lemma SafeEnterBlock(f: Fences, sent: seq<Piece>, text: string, cursor: nat, p: nat)
    requires Safe(f, sent, text, cursor, false)
    requires f.start != "" && Find(text, f.start, cursor) == Some(p)
    ensures cursor <= p < |text|
    ensures Safe(f, sent + PlainPiece(text[cursor..p]), text, p, true)
  {
    hide Refines, NoFenceIn, PlainPiece, OccursAt, CanParseFrom, PlainRun, Texts;
    FindDrop(text, f.start, cursor, 0);
    OccursFits(text, f.start, p);
    var held := text[cursor..];
    ParseToFence(f, held, p - cursor);
    RefinesToFence(f, sent, text, held, p - cursor);
    assert held[..p - cursor] == text[cursor..p];
    assert held[p - cursor..] == text[p..];
    SendText(sent, text, cursor, p, Plain(text[cursor..p]));
  }

  lemma SafeSendPlain(f: Fences, sent: seq<Piece>, text: string, cursor: nat, n: nat)
    requires Safe(f, sent, text, cursor, false)
    requires f.start == "" || Find(text, f.start, cursor).None?
    requires LongestOverlap(text[cursor..], f.start, n)
    ensures n <= |text| - cursor
    ensures Safe(f, sent + PlainPiece(text[cursor..|text| - n]), text, |text| - n, false)
    ensures Drained(f, false, text[|text| - n..])
  {
    hide Refines, NoFenceIn, PlainPiece, OccursAt, PlainRun, Texts;
    FindDrop(text, f.start, cursor, 0);
    var held, to := text[cursor..], |text| - n;
    OverlapIsPartial(held, f.start, n);
    RefinesToOverlap(f, sent, text, held, n);
    assert held[..|held| - n] == text[cursor..to];
    assert held[|held| - n..] == text[to..];
    NoFenceInToOverlap(f, text, cursor, n);
    NoFenceInJoin(f, text, cursor - PlainRun(sent), cursor, to);
    SendText(sent, text, cursor, to, Plain(text[cursor..to]));
  }

  lemma SafeLeaveBlock(f: Fences, sent: seq<Piece>, text: string, cursor: nat, q: nat)
    requires Safe(f, sent, text, cursor, true)
    requires Find(text, f.end, cursor + |f.start|) == Some(q)
    ensures cursor < q + |f.end| <= |text|
    ensures Safe(f, sent + [Block(text[cursor..q + |f.end|])], text, q + |f.end|, false)
  {
    hide Refines, NoFenceIn, OccursAt, PlainRun, Texts;
    FindDrop(text, f.end, cursor, |f.start|);
    var held, to := text[cursor..], q + |f.end|;
    OccursFits(text, f.end, q);
    RefinesToBlockEnd(f, sent, text, held, q - cursor);
    assert held[..to - cursor] == text[cursor..to];
    assert held[to - cursor..] == text[to..];
    NoFenceInNothing(f, text, to);
    SendText(sent, text, cursor, to, Block(text[cursor..to]));
  }

  lemma SafeWaitInBlock(f: Fences, sent: seq<Piece>, text: string, cursor: nat)
    requires Safe(f, sent, text, cursor, true)
    requires Find(text, f.end, cursor + |f.start|).None?
    ensures Drained(f, true, text[cursor..])
  {
    hide Refines, NoFenceIn, PlainRun, Texts;
    FindDrop(text, f.end, cursor, |f.start|);
  }

  lemma OverlapCompletes(text: string, from: nat, start: string, m: nat)
    requires from <= |text| && Overlaps(text[from..], start, m)
    ensures OccursAt(text + start[m..], start, |text| - m)
  {
    assert text[|text| - m..] == text[from..][|text| - from - m..] == start[..m];
    assert (text + start[m..])[|text| - m..] == text[|text| - m..] + start[m..] == start;
  }

  /**
   The hold-back is exact: outside a block, what is withheld is the longest suffix of the current
   plain text that some continuation could turn into a start fence, neither more nor less.
   */
  lemma HoldBackIsExact(f: Fences, sent: seq<Piece>, text: string, cursor: nat)
    requires Safe(f, sent, text, cursor, false) && Drained(f, false, text[cursor..])
    ensures LongestOverlap(text[cursor - PlainRun(sent)..], f.start, |text| - cursor)
  {
    hide Refines, PlainRun, Texts, Find;
    var plain, n := text[cursor - PlainRun(sent)..], |text| - cursor;
    assert plain[|plain| - n..] == text[cursor..];
    forall m | n < m ensures !Overlaps(plain, f.start, m) {
      if Overlaps(plain, f.start, m) {
        OverlapCompletes(text, cursor - PlainRun(sent), f.start, m);
      }
    }
  }

  class InternalCallback {
    const fences: Fences
    const toMessageOk: string -> bool  // whether ToMessage succeeds on a text
    var accumulated: string
    var cursor: nat
    var insideToolCall: bool
    var calls: seq<Call>

    /** Holds at every turn of the loop. */
    ghost predicate Running()
      reads this
    {
      Safe(fences, Sent(calls), accumulated, cursor, insideToolCall)
    }

    /** Holds between responses. */
    ghost predicate Valid()
      reads this
    {
      && Running()
      && cursor <= |accumulated|
      && Drained(fences, insideToolCall, accumulated[cursor..])
    }

    constructor (fences: Fences, toMessageOk: string -> bool)
      ensures Valid()
      ensures this.fences == fences && this.toMessageOk == toMessageOk
      ensures accumulated == "" && calls == [] && cursor == 0 && !insideToolCall
    {
      this.fences, this.toMessageOk := fences, toMessageOk;
      accumulated, cursor, insideToolCall, calls := "", 0, false, [];
      SafeAtStart(fences);
    }

    method SendMessage(piece: Piece)
      modifies `calls
      ensures calls == if piece.text == "" then old(calls) else old(calls) + [Send(piece)]
      ensures SentOnly(old(calls), calls)
      ensures Sent(calls) == if piece.text == "" then Sent(old(calls)) else Sent(old(calls)) + [piece]
      ensures piece.Plain? ==> Sent(calls) == Sent(old(calls)) + PlainPiece(piece.text)
    {
      if piece.text == "" {
        return;
      }
      SentSnoc(calls, Send(piece));
      calls := calls + [Send(piece)];
    }

    method SendCompleteMessage()
      requires Valid()
      modifies `calls
      ensures calls == old(calls)
                       + (if cursor == |accumulated| then []
                          else [Send(HeldPiece(insideToolCall, accumulated[cursor..])[0])])
                       + (if toMessageOk(accumulated) then [Complete(accumulated), End] else [Failed])
      ensures Join(Sent(calls)) == Parse(fences, accumulated)
    {
      hide Join, Refines, Parse, CanParseFrom, Drained, NoFenceIn, Sent;
      RefinesAtEnd(fences, Sent(calls), accumulated, insideToolCall, accumulated[cursor..]);
      assert Sent(calls) + [] == Sent(calls);
      if cursor < |accumulated| {
        var rest := accumulated[cursor..];
        SendMessage(if insideToolCall then Unclosed(rest) else Plain(rest));
      }
      if !toMessageOk(accumulated) {
        SentSnoc(calls, Failed);
        calls := calls + [Failed];
        return;
      }
      SentSnoc(calls, Complete(accumulated));
      SentSnoc(calls + [Complete(accumulated)], End);
      calls := calls + [Complete(accumulated)];
      calls := calls + [End];
    }

    /** The branch outside a block: sends plain text, and says whether to wait for more text. */
    method ScanPlainText() returns (wait: bool)
      requires Running() && !insideToolCall && cursor < |accumulated|
      modifies `cursor, `insideToolCall, `calls
      ensures Running() && old(cursor) <= cursor <= |accumulated|
      ensures SentOnly(old(calls), calls)
      ensures wait ==> Valid()
      ensures !wait ==> insideToolCall || cursor == |accumulated|
    {
      hide Safe, Refines, Parse, PlainPiece, OccursAt, LongestOverlap, Sent, Drained;
      var startPos := Find(accumulated, fences.start, cursor);
      if fences.start != "" && startPos.Some? {
        SafeEnterBlock(fences, Sent(calls), accumulated, cursor, startPos.value);
        SendMessage(Plain(accumulated[cursor..startPos.value]));
        cursor := startPos.value;
        insideToolCall := true;
        return false;
      }
      SafeBounds(fences, Sent(calls), accumulated, cursor, insideToolCall);
      var overlap := SuffixPrefixOverlap(accumulated[cursor..], fences.start);
      SafeSendPlain(fences, Sent(calls), accumulated, cursor, overlap);
      if overlap > 0 {
        var possibleStart := |accumulated| - overlap;
        SendMessage(Plain(accumulated[cursor..possibleStart]));
        cursor := possibleStart;
        return true;
      } else {
        assert accumulated[cursor..|accumulated|] == accumulated[cursor..];
        SendMessage(Plain(accumulated[cursor..]));
        cursor := |accumulated|;
        return false;
      }
    }

    /** The branch inside a block: sends the block if it is closed, or waits. */
    method ScanBlock() returns (wait: bool)
      requires Running() && insideToolCall
      modifies `cursor, `insideToolCall, `calls
      ensures Running() && cursor <= |accumulated|
      ensures SentOnly(old(calls), calls)
      ensures wait ==> Valid() && cursor == old(cursor)
      ensures !wait ==> !insideToolCall && old(cursor) < cursor
    {
      hide Safe, Refines, Parse, OccursAt, Sent, Drained;
      SafeBounds(fences, Sent(calls), accumulated, cursor, insideToolCall);
      var endPos := Find(accumulated, fences.end, cursor + |fences.start|);
      if endPos.None? {
        SafeWaitInBlock(fences, Sent(calls), accumulated, cursor);
        return true;
      }
      SafeLeaveBlock(fences, Sent(calls), accumulated, cursor, endPos.value);
      var blockEnd := endPos.value + |fences.end|;
      SendMessage(Block(accumulated[cursor..blockEnd]));
      cursor := blockEnd;
      insideToolCall := false;
      return false;
    }

    /** The while loop, run when new text has been accumulated. */
    method ProcessAccumulated()
      requires Running()
      modifies `cursor, `insideToolCall, `calls
      ensures Valid()
      ensures SentOnly(old(calls), calls) && old(cursor) <= cursor
    {
      hide Safe;
      SafeBounds(fences, Sent(calls), accumulated, cursor, insideToolCall);
      while cursor < |accumulated|
        invariant Running() && cursor <= |accumulated|
        invariant SentOnly(old(calls), calls) && old(cursor) <= cursor
        decreases |accumulated| - cursor
      {
        if !insideToolCall {
          var wait := ScanPlainText();
          if wait {
            return;
          }
        }
        if insideToolCall {
          var wait := ScanBlock();
          if wait {
            return;
          }
        }
      }
      SafeBounds(fences, Sent(calls), accumulated, cursor, insideToolCall);
    }

    /** The callback itself. The response after `Finished` is outside the protocol. */
    method OnResponse(response: Response)
      requires Valid()
      modifies this
      ensures !response.Finished? ==> Valid()
      ensures old(calls) <= calls
      ensures response.Processing? && response.texts != [] ==>
                && accumulated == old(accumulated) + response.texts[0]
                && forall i :: |old(calls)| <= i < |calls| ==> calls[i].Send?
      ensures !(response.Processing? && response.texts != []) ==>
                accumulated == old(accumulated) && cursor == old(cursor) && insideToolCall == old(insideToolCall)
      ensures response.Finished? ==>
                && Join(Sent(calls)) == Parse(fences, accumulated)
                && Completed(calls, toMessageOk, accumulated)
      ensures response.Error? ==>
                calls == old(calls) + (if response.cancelled then [CancelCalled] else []) + [Failed]
      ensures response.OtherState? || response == Processing([]) ==> calls == old(calls)
    {
      hide Safe, Parse, Join, Drained, Sent;
      match response {
        case Error(cancelled) =>
          if cancelled {
            SentSnoc(calls, CancelCalled);
            calls := calls + [CancelCalled];
          }
          SentSnoc(calls, Failed);
          calls := calls + [Failed];
        case Finished =>
          SendCompleteMessage();
        case Processing(texts) =>
          if texts == [] {
            return;
          }
          SafeAppend(fences, Sent(calls), accumulated, cursor, insideToolCall, texts[0]);
          accumulated := accumulated + texts[0];
          ProcessAccumulated();
        case OtherState =>
      }
    }
  }

  function Concat(chunks: seq<string>): string {
    if chunks == [] then "" else Concat(chunks[..|chunks| - 1]) + chunks[|chunks| - 1]
  }

  /** A whole response: the chunks, then the end. What is sent depends only on the text they make up. */
  method RunStream(fences: Fences, toMessageOk: string -> bool, chunks: seq<string>) returns (calls: seq<Call>)
    ensures Join(Sent(calls)) == Parse(fences, Concat(chunks))
    ensures Completed(calls, toMessageOk, Concat(chunks))
  {
    var callback := new InternalCallback(fences, toMessageOk);
    var n := 0;
    while n < |chunks|
      invariant 0 <= n <= |chunks|
      invariant callback.Valid() && fresh(callback)
      invariant callback.fences == fences && callback.toMessageOk == toMessageOk
      invariant callback.accumulated == Concat(chunks[..n])
    {
      assert chunks[..n + 1][..n] == chunks[..n];
      callback.OnResponse(Processing([chunks[n]]));
      n := n + 1;
    }
    assert chunks[..n] == chunks;
    callback.OnResponse(Finished);
    calls := callback.calls;
  }
}

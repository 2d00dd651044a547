// The binary PGM reader, the writers' format, and the occupancy built from a map.
module Pgm {
  import opened Basics

  type Byte = n: nat | n < 256

  const NEWLINE: Byte := 10
  const HASH: Byte := 35
  const USIZE: nat := 0x1_0000_0000_0000_0000

  datatype Error = Empty | NotP5 | Missing | Bad | MaxvalTooBig(maxval: nat) | SizeOverflow | TooShort(need: nat, have: int) | Stops

  datatype Result<T> = Ok(value: T) | Err(error: Error)

  datatype Image = Image(w: nat, h: nat, pixels: seq<Byte>)

  // Space, tab, line feed, form feed, carriage return.
  predicate IsSpace(c: Byte) { c == 32 || c == 9 || c == 10 || c == 12 || c == 13 }

  predicate IsDigit(c: Byte) { 48 <= c <= 57 }

  // ------------------------------------------------------------ tokens

  // The end of the line that starts at pos, its newline excluded.
  function LineEnd(b: seq<Byte>, pos: nat): (r: nat)
    requires pos <= |b|
    ensures pos <= r <= |b|
    decreases |b| - pos
  {
    if pos < |b| && b[pos] != NEWLINE then LineEnd(b, pos + 1) else pos
  }

  // Past white space and comments.
  function SkipGap(b: seq<Byte>, pos: nat): (r: nat)
    requires pos <= |b|
    ensures pos <= r <= |b|
    decreases |b| - pos
  {
    if pos == |b| then pos
    else if IsSpace(b[pos]) then SkipGap(b, pos + 1)
    else if b[pos] == HASH then SkipGap(b, LineEnd(b, pos + 1))
    else pos
  }

  function TokenEnd(b: seq<Byte>, pos: nat): (r: nat)
    requires pos <= |b|
    ensures pos <= r <= |b|
    decreases |b| - pos
  {
    if pos < |b| && !IsSpace(b[pos]) then TokenEnd(b, pos + 1) else pos
  }

  // The next token and the position after it.
  function TokenAt(b: seq<Byte>, pos: nat): (r: (Option<seq<Byte>>, nat))
    requires pos <= |b|
    ensures r.1 <= |b|
  {
    var start := SkipGap(b, pos);
    if start == |b| then (None, start) else (Some(b[start..TokenEnd(b, start)]), TokenEnd(b, start))
  }

  method NextToken(b: seq<Byte>, from: nat) returns (tok: Option<seq<Byte>>, pos: nat)
    requires from <= |b|
    ensures (tok, pos) == TokenAt(b, from)
  {
    pos := from;
    while true
      invariant pos <= |b| && SkipGap(b, pos) == SkipGap(b, from)
      decreases |b| - pos
    {
      while pos < |b| && IsSpace(b[pos])
        invariant pos <= |b| && SkipGap(b, pos) == SkipGap(b, from)
      {
        pos := pos + 1;
      }
      if pos < |b| && b[pos] == HASH {
        ghost var hash := pos;
        while pos < |b| && b[pos] != NEWLINE
          invariant hash <= pos <= |b| && LineEnd(b, pos) == LineEnd(b, hash)
          invariant pos == hash ==> b[pos] == HASH
        {
          pos := pos + 1;
        }
        continue;
      }
      break;
    }
    if pos >= |b| { return None, pos; }
    var start := pos;
    while pos < |b| && !IsSpace(b[pos])
      invariant start <= pos <= |b| && TokenEnd(b, pos) == TokenEnd(b, start)
    {
      pos := pos + 1;
    }
    tok := Some(b[start..pos]);
  }

  // ------------------------------------------------------------ numbers

  function ValueOf(s: seq<Byte>): nat
    requires forall i :: 0 <= i < |s| ==> IsDigit(s[i])
  {
    if |s| == 0 then 0 else assert IsDigit(s[|s| - 1]); 10 * ValueOf(s[..|s| - 1]) + (s[|s| - 1] - 48)
  }

  // A decimal machine word with an optional plus sign.
  function ParseWord(tok: seq<Byte>): Option<nat> {
    var s := if |tok| > 0 && tok[0] == 43 then tok[1..] else tok;
    if |s| == 0 || exists i :: 0 <= i < |s| && !IsDigit(s[i]) then None
    else if ValueOf(s) >= USIZE then None
    else Some(ValueOf(s))
  }

  function Decimal(n: nat): (s: seq<Byte>)
    ensures |s| > 0 && forall i :: 0 <= i < |s| ==> IsDigit(s[i])
  {
    if n < 10 then [48 + n] else Decimal(n / 10) + [48 + n % 10]
  }

  lemma {:induction false} DecimalValue(n: nat)
    ensures ValueOf(Decimal(n)) == n
  {
    var s := Decimal(n);
    if n >= 10 {
      DecimalValue(n / 10);
      assert s[..|s| - 1] == Decimal(n / 10);
    } else {
      assert s[..0] == [];
    }
  }

  lemma WordRoundTrip(n: nat)
    requires n < USIZE
    ensures ParseWord(Decimal(n)) == Some(n)
  {
    DecimalValue(n);
    assert IsDigit(Decimal(n)[0]);
  }

  // "+0384" is 384, a sign alone is no number.
  lemma WordExamples()
    ensures ParseWord([43, 48, 51, 56, 52]) == Some(384) && ParseWord([43]) == None
  {
    var s: seq<Byte> := [48, 51, 56, 52];
    assert [43, 48, 51, 56, 52][1..] == s && [43][1..] == [];
    assert s[..3] == [48, 51, 56] && s[..3][..2] == [48, 51] && s[..3][..2][..1] == [48] && s[..3][..2][..1][..0] == [];
    assert ValueOf([48]) == 0;
    assert ValueOf([48, 51]) == 3;
    assert ValueOf([48, 51, 56]) == 38;
    assert ValueOf(s) == 384;
    assert ParseWord([43, 48, 51, 56, 52]) == Some(ValueOf(s));
  }

  // ------------------------------------------------------------ the parser

  function WordAt(b: seq<Byte>, pos: nat): (r: (Result<nat>, nat))
    requires pos <= |b|
    ensures r.1 <= |b|
  {
    var (tok, next) := TokenAt(b, pos);
    if tok.None? then (Err(Missing), next)
    else if ParseWord(tok.value).None? then (Err(Bad), next)
    else (Ok(ParseWord(tok.value).value), next)
  }

  const P5: seq<Byte> := [80, 53]

  // Where the raster ends need not fit a usize: the program then stops, in the
  // addition, or, if that wraps, in the slice whose end lies before its start.
  function RasterAt(b: seq<Byte>, pos: nat, w: nat, h: nat): Result<Image>
    requires pos <= |b|
  {
    var start := if pos < |b| && IsSpace(b[pos]) then pos + 1 else pos;
    if w * h >= USIZE then Err(SizeOverflow)
    else if start + w * h >= USIZE then Err(Stops)
    else if |b| < start + w * h then Err(TooShort(w * h, |b| - start))
    else Size(w, h); Ok(Image(w, h, b[start..start + w * h]))
  }

  lemma Size(w: nat, h: nat)
    ensures w * h >= 0
  {
  }

  function Parse(b: seq<Byte>): Result<Image> {
    var (magic, p0) := TokenAt(b, 0);
    if magic.None? then Err(Empty)
    else if magic.value != P5 then Err(NotP5)
    else
      var (w, p1) := WordAt(b, p0);
      if w.Err? then Err(w.error)
      else
        var (h, p2) := WordAt(b, p1);
        if h.Err? then Err(h.error)
        else
          var (m, p3) := WordAt(b, p2);
          if m.Err? then Err(m.error)
          else if m.value > 255 then Err(MaxvalTooBig(m.value))
          else RasterAt(b, p3, w.value, h.value)
  }

  method ParseTokenUsize(b: seq<Byte>, from: nat) returns (r: Result<nat>, pos: nat)
    requires from <= |b|
    ensures (r, pos) == WordAt(b, from)
  {
    var tok;
    tok, pos := NextToken(b, from);
    if tok.None? { return Err(Missing), pos; }
    var n := ParseWord(tok.value);
    r := if n.None? then Err(Bad) else Ok(n.value);
  }

  method ParsePgmP5(b: seq<Byte>) returns (r: Result<Image>)
    ensures r == Parse(b)
  {
    hide TokenAt, WordAt;
    var magic, pos := NextToken(b, 0);
    if magic.None? { return Err(Empty); }
    if magic.value != P5 { return Err(NotP5); }
    var w, h, maxval;
    w, pos := ParseTokenUsize(b, pos);
    if w.Err? { return Err(w.error); }
    h, pos := ParseTokenUsize(b, pos);
    if h.Err? { return Err(h.error); }
    maxval, pos := ParseTokenUsize(b, pos);
    if maxval.Err? { return Err(maxval.error); }
    if maxval.value > 255 { return Err(MaxvalTooBig(maxval.value)); }
    ghost var headerEnd := pos;
    if pos < |b| && IsSpace(b[pos]) { pos := pos + 1; }
    var n := w.value * h.value;
    if n >= USIZE { return Err(SizeOverflow); }
    if pos + n >= USIZE { return Err(Stops); }
    if |b| < pos + n { return Err(TooShort(n, |b| - pos)); }
    Size(w.value, h.value);
    r := Ok(Image(w.value, h.value, b[pos..pos + n]));
  }

  // ------------------------------------------------------------ round trip

  // White space and whole comment lines, in any mixture.
  predicate IsGap(g: seq<Byte>)
    decreases |g|
  {
    if g == [] then true
    else if IsSpace(g[0]) then IsGap(g[1..])
    else g[0] == HASH && var e := LineEnd(g, 1); e < |g| && IsGap(g[e + 1..])
  }

  // g stands in b at pos.
  predicate Stands(b: seq<Byte>, pos: nat, g: seq<Byte>) { pos + |g| <= |b| && b[pos..pos + |g|] == g }

  lemma {:induction false} LineEndIn(b: seq<Byte>, pos: nat, g: seq<Byte>, k: nat)
    requires Stands(b, pos, g) && k <= |g| && LineEnd(g, k) < |g|
    ensures LineEnd(b, pos + k) == pos + LineEnd(g, k) && b[pos + LineEnd(g, k)] == NEWLINE
    decreases |g| - k
  {
    assert forall i :: 0 <= i < |g| ==> b[pos + i] == b[pos..pos + |g|][i] == g[i];
    if k < |g| && g[k] != NEWLINE {
      LineEndIn(b, pos, g, k + 1);
    }
  }

  lemma StandsTail(b: seq<Byte>, pos: nat, g: seq<Byte>, k: nat)
    requires Stands(b, pos, g) && k <= |g|
    ensures Stands(b, pos + k, g[k..])
  {
    assert b[pos..pos + |g|][k..] == b[pos + k..pos + |g|];
  }

  lemma StandsAt(b: seq<Byte>, pos: nat, g: seq<Byte>, k: nat)
    requires Stands(b, pos, g) && k < |g|
    ensures b[pos + k] == g[k]
  {
    assert b[pos + k] == b[pos..pos + |g|][k];
  }

  lemma SpaceSkipped(b: seq<Byte>, pos: nat, g: seq<Byte>)
    requires Stands(b, pos, g) && |g| > 0 && IsSpace(g[0])
    ensures SkipGap(b, pos) == SkipGap(b, pos + 1)
  {
    StandsAt(b, pos, g, 0);
    hide Stands, IsSpace;
  }

  lemma CommentSkipped(b: seq<Byte>, pos: nat, g: seq<Byte>)
    requires Stands(b, pos, g) && |g| > 0 && g[0] == HASH && LineEnd(g, 1) < |g|
    ensures SkipGap(b, pos) == SkipGap(b, pos + LineEnd(g, 1) + 1)
  {
    StandsAt(b, pos, g, 0);
    LineEndIn(b, pos, g, 1);
    hide LineEnd, Stands;
    assert SkipGap(b, pos) == SkipGap(b, pos + LineEnd(g, 1));
  }

  // The first space or comment of a gap is passed.
  lemma GapStep(b: seq<Byte>, pos: nat, g: seq<Byte>) returns (k: nat)
    requires Stands(b, pos, g) && IsGap(g) && g != []
    ensures 0 < k <= |g| && IsGap(g[k..]) && Stands(b, pos + k, g[k..]) && SkipGap(b, pos) == SkipGap(b, pos + k)
  {
    hide LineEnd, Stands, SkipGap, IsSpace;
    k := if IsSpace(g[0]) then 1 else LineEnd(g, 1) + 1;
    if IsSpace(g[0]) { SpaceSkipped(b, pos, g); } else { CommentSkipped(b, pos, g); }
    StandsTail(b, pos, g, k);
  }

  lemma {:induction false} GapSkipped(b: seq<Byte>, pos: nat, g: seq<Byte>)
    requires Stands(b, pos, g) && IsGap(g)
    ensures SkipGap(b, pos) == SkipGap(b, pos + |g|)
    decreases |g|
  {
    if g != [] {
      hide IsGap, SkipGap;
      var k := GapStep(b, pos, g);
      GapSkipped(b, pos + k, g[k..]);
      assert pos + k + |g[k..]| == pos + |g|;
    }
  }

  predicate IsToken(tok: seq<Byte>) { |tok| > 0 && tok[0] != HASH && forall i :: 0 <= i < |tok| ==> !IsSpace(tok[i]) }

  // The file ends at pos, or white space stands there.
  predicate Ends(b: seq<Byte>, pos: nat) { pos == |b| || (pos < |b| && IsSpace(b[pos])) }

  lemma {:induction false} TokenEndIn(b: seq<Byte>, pos: nat, tok: seq<Byte>, k: nat)
    requires Stands(b, pos, tok) && k <= |tok| && IsToken(tok)
    requires Ends(b, pos + |tok|)
    ensures TokenEnd(b, pos + k) == pos + |tok|
    decreases |tok| - k
  {
    assert forall i :: 0 <= i < |tok| ==> b[pos + i] == b[pos..pos + |tok|][i] == tok[i];
    if k < |tok| {
      TokenEndIn(b, pos, tok, k + 1);
    }
  }

  lemma TokenStarts(b: seq<Byte>, pos: nat, tok: seq<Byte>)
    requires Stands(b, pos, tok) && IsToken(tok)
    ensures SkipGap(b, pos) == pos
  {
    StandsAt(b, pos, tok, 0);
    hide Stands;
  }

  lemma TokenIs(b: seq<Byte>, pos: nat, start: nat, tok: seq<Byte>)
    requires pos <= |b| && Stands(b, start, tok) && |tok| > 0
    requires SkipGap(b, pos) == start && TokenEnd(b, start) == start + |tok|
    ensures TokenAt(b, pos) == (Some(tok), start + |tok|)
  {
    hide SkipGap, TokenEnd;
  }

  // A token after a gap is read as it is.
  lemma TokenRead(b: seq<Byte>, pos: nat, gap: seq<Byte>, tok: seq<Byte>)
    requires Stands(b, pos, gap) && IsGap(gap) && Stands(b, pos + |gap|, tok) && IsToken(tok)
    requires Ends(b, pos + |gap| + |tok|)
    ensures TokenAt(b, pos) == (Some(tok), pos + |gap| + |tok|)
  {
    hide SkipGap, TokenEnd, IsGap, IsSpace, TokenAt, Ends, IsToken, Stands;
    var start := pos + |gap|;
    StandsWithin(b, pos, gap);
    TokenStarts(b, start, tok);
    GapSkipped(b, pos, gap);
    TokenEnds(b, start, tok);
    TokenIs(b, pos, start, tok);
  }

  lemma StandsWithin(b: seq<Byte>, pos: nat, g: seq<Byte>)
    requires Stands(b, pos, g)
    ensures pos + |g| <= |b|
  {
  }

  lemma TokenEnds(b: seq<Byte>, start: nat, tok: seq<Byte>)
    requires Stands(b, start, tok) && IsToken(tok) && Ends(b, start + |tok|)
    ensures |tok| > 0 && TokenEnd(b, start) == start + |tok|
  {
    TokenEndIn(b, start, tok, 0);
    hide Stands, TokenEnd, Ends;
  }

  lemma WordRead(b: seq<Byte>, pos: nat, gap: seq<Byte>, n: nat)
    requires n < USIZE && Stands(b, pos, gap) && IsGap(gap) && Stands(b, pos + |gap|, Decimal(n))
    requires Ends(b, pos + |gap| + |Decimal(n)|)
    ensures WordAt(b, pos) == (Ok(n), pos + |gap| + |Decimal(n)|)
  {
    WordRoundTrip(n);
    assert forall i :: 0 <= i < |Decimal(n)| ==> IsDigit(Decimal(n)[i]) && !IsSpace(Decimal(n)[i]);
    assert IsDigit(Decimal(n)[0]);
    hide Decimal, SkipGap, TokenEnd, IsGap, ParseWord;
    TokenRead(b, pos, gap, Decimal(n));
  }

  // ------------------------------------------------------------ whole files

  // What separates the header's tokens: the gaps before them.
  datatype Layout = Layout(g0: seq<Byte>, g1: seq<Byte>, g2: seq<Byte>, g3: seq<Byte>, sep: Byte) {
    // Gaps are white space and comment lines; a gap after a token starts with white space.
    ghost predicate Proper() {
      && IsGap(g0) && IsGap(g1) && IsGap(g2) && IsGap(g3) && IsSpace(sep)
      && g1 != [] && IsSpace(g1[0]) && g2 != [] && IsSpace(g2[0]) && g3 != [] && IsSpace(g3[0])
    }

    function Header(w: nat, h: nat, maxval: nat): seq<Byte> {
      g0 + P5 + g1 + Decimal(w) + g2 + Decimal(h) + g3 + Decimal(maxval) + [sep]
    }
  }

  // The pieces of a file, one after the other.
  lemma {:induction false} Pieces(b: seq<Byte>, pos: nat, x: seq<Byte>, y: seq<Byte>)
    requires Stands(b, pos, x + y)
    ensures Stands(b, pos, x) && Stands(b, pos + |x|, y)
  {
    assert (x + y)[..|x|] == x && (x + y)[|x|..] == y;
    assert b[pos..pos + |x + y|][..|x|] == b[pos..pos + |x|];
    assert b[pos..pos + |x + y|][|x|..] == b[pos + |x|..pos + |x + y|];
  }

  lemma SpaceAfter(b: seq<Byte>, pos: nat, g: seq<Byte>)
    requires Stands(b, pos, g) && g != [] && IsSpace(g[0])
    ensures pos < |b| && Ends(b, pos)
  {
    StandsAt(b, pos, g, 0);
  }

  // A token, a number, and what follows.
  lemma WordPiece(b: seq<Byte>, pos: nat, gap: seq<Byte>, n: nat, rest: seq<Byte>)
    requires n < USIZE && IsGap(gap) && Stands(b, pos, gap + (Decimal(n) + rest)) && rest != [] && IsSpace(rest[0])
    ensures WordAt(b, pos) == (Ok(n), pos + |gap| + |Decimal(n)|)
    ensures Stands(b, pos + |gap| + |Decimal(n)|, rest)
  {
    hide Stands, IsGap, IsSpace, Decimal, WordAt;
    Pieces(b, pos, gap, Decimal(n) + rest);
    Pieces(b, pos + |gap|, Decimal(n), rest);
    SpaceAfter(b, pos + |gap| + |Decimal(n)|, rest);
    WordRead(b, pos, gap, n);
  }

  lemma MagicIsToken()
    ensures IsToken(P5) && |P5| == 2
  {
  }

  lemma MagicPiece(b: seq<Byte>, pos: nat, gap: seq<Byte>, rest: seq<Byte>)
    requires IsGap(gap) && Stands(b, pos, gap + (P5 + rest)) && rest != [] && IsSpace(rest[0])
    ensures TokenAt(b, pos) == (Some(P5), pos + |gap| + |P5|) && Stands(b, pos + |gap| + |P5|, rest)
  {
    hide Stands, IsGap, IsSpace, TokenAt, IsToken, P5;
    MagicIsToken();
    Pieces(b, pos, gap, P5 + rest);
    Pieces(b, pos + |gap|, P5, rest);
    SpaceAfter(b, pos + |gap| + |P5|, rest);
    TokenRead(b, pos, gap, P5);
  }

  // The parts of a file, grouped from the right.
  function File(l: Layout, w: nat, h: nat, maxval: nat, body: seq<Byte>): seq<Byte> {
    l.g0 + (P5 + (l.g1 + (Decimal(w) + (l.g2 + (Decimal(h) + (l.g3 + (Decimal(maxval) + ([l.sep] + body))))))))
  }

  lemma Regroup(l: Layout, w: nat, h: nat, maxval: nat, raster: seq<Byte>, tail: seq<Byte>)
    ensures l.Header(w, h, maxval) + raster + tail == File(l, w, h, maxval, raster + tail)
  {
    hide Decimal;
    var (d0, d1, d2) := (Decimal(w), Decimal(h), Decimal(maxval));
    assert l.Header(w, h, maxval) + raster + tail == l.Header(w, h, maxval) + (raster + tail);
    Shift9(l.g0, P5, l.g1, d0, l.g2, d1, l.g3, d2, [l.sep], raster + tail);
  }

  lemma Shift3(a: seq<Byte>, b: seq<Byte>, c: seq<Byte>)
    ensures (a + b) + c == a + (b + c)
  {
  }

  lemma Shift9(a: seq<Byte>, b: seq<Byte>, c: seq<Byte>, d: seq<Byte>, e: seq<Byte>, f: seq<Byte>,
               g: seq<Byte>, h: seq<Byte>, i: seq<Byte>, j: seq<Byte>)
    ensures (a + b + c + d + e + f + g + h + i) + j == a + (b + (c + (d + (e + (f + (g + (h + (i + j))))))))
  {
    Shift3(a + b + c + d + e + f + g + h, i, j);
    Shift3(a + b + c + d + e + f + g, h, i + j);
    Shift3(a + b + c + d + e + f, g, h + (i + j));
    Shift3(a + b + c + d + e, f, g + (h + (i + j)));
    Shift3(a + b + c + d, e, f + (g + (h + (i + j))));
    Shift3(a + b + c, d, e + (f + (g + (h + (i + j)))));
    Shift3(a + b, c, d + (e + (f + (g + (h + (i + j))))));
    Shift3(a, b, c + (d + (e + (f + (g + (h + (i + j)))))));
  }

  lemma HeadOf(g: seq<Byte>, x: seq<Byte>)
    requires g != []
    ensures g + x != [] && (g + x)[0] == g[0]
  {
  }

  // A word in the header: the next part r starts with white space.
  lemma NextWord(b: seq<Byte>, pos: nat, s: seq<Byte>, gap: seq<Byte>, n: nat, r: seq<Byte>) returns (next: nat)
    requires n < USIZE && IsGap(gap) && pos <= |b| && Stands(b, pos, s) && s == gap + (Decimal(n) + r) && r != [] && IsSpace(r[0])
    ensures WordAt(b, pos) == (Ok(n), next) && next <= |b| && Stands(b, next, r) && next + |r| == pos + |s|
  {
    hide Stands, IsGap, IsSpace, Decimal, WordAt;
    WordPiece(b, pos, gap, n, r);
    next := pos + |gap| + |Decimal(n)|;
    assert next == WordAt(b, pos).1;
  }

  // The four header tokens are read in turn, up to the separator.
  lemma HeaderRead(b: seq<Byte>, l: Layout, w: nat, h: nat, maxval: nat, body: seq<Byte>) returns (p0: nat, p1: nat, p2: nat, p3: nat)
    requires l.Proper() && w < USIZE && h < USIZE && maxval < USIZE && b == File(l, w, h, maxval, body)
    ensures p0 <= |b| && TokenAt(b, 0) == (Some(P5), p0)
    ensures p1 <= |b| && WordAt(b, p0) == (Ok(w), p1)
    ensures p2 <= |b| && WordAt(b, p1) == (Ok(h), p2)
    ensures p3 <= |b| && WordAt(b, p2) == (Ok(maxval), p3)
    ensures Stands(b, p3, [l.sep] + body) && p3 + 1 + |body| == |b|
  {
    hide Decimal, IsGap, IsSpace, Stands, P5, TokenAt, WordAt;
    var r4 := [l.sep] + body;
    var r3 := l.g3 + (Decimal(maxval) + r4);
    var r2 := l.g2 + (Decimal(h) + r3);
    var r1 := l.g1 + (Decimal(w) + r2);
    assert b == l.g0 + (P5 + r1);
    StandsWhole(b);
    hide File;
    HeadOf(l.g1, Decimal(w) + r2);
    HeadOf(l.g2, Decimal(h) + r3);
    HeadOf(l.g3, Decimal(maxval) + r4);
    HeadOf([l.sep], body);
    p0, p1, p2, p3 := Words(b, l.g0, l.g1, w, l.g2, h, l.g3, maxval, r1, r2, r3, r4);
  }

  lemma StandsWhole(b: seq<Byte>)
    ensures Stands(b, 0, b)
  {
  }

  lemma Words(b: seq<Byte>, g0: seq<Byte>, g1: seq<Byte>, w: nat, g2: seq<Byte>, h: nat, g3: seq<Byte>, m: nat,
              r1: seq<Byte>, r2: seq<Byte>, r3: seq<Byte>, r4: seq<Byte>) returns (p0: nat, p1: nat, p2: nat, p3: nat)
    requires w < USIZE && h < USIZE && m < USIZE && IsGap(g0) && IsGap(g1) && IsGap(g2) && IsGap(g3)
    requires r1 == g1 + (Decimal(w) + r2) && r2 == g2 + (Decimal(h) + r3) && r3 == g3 + (Decimal(m) + r4)
    requires r1 != [] && IsSpace(r1[0]) && r2 != [] && IsSpace(r2[0]) && r3 != [] && IsSpace(r3[0]) && r4 != [] && IsSpace(r4[0])
    requires Stands(b, 0, g0 + (P5 + r1))
    ensures p0 <= |b| && TokenAt(b, 0) == (Some(P5), p0)
    ensures p1 <= |b| && WordAt(b, p0) == (Ok(w), p1)
    ensures p2 <= |b| && WordAt(b, p1) == (Ok(h), p2)
    ensures p3 <= |b| && WordAt(b, p2) == (Ok(m), p3)
    ensures Stands(b, p3, r4) && p3 + |r4| == |g0 + (P5 + r1)|
  {
    hide Decimal, IsGap, IsSpace, TokenAt, WordAt, Stands, P5;
    MagicPiece(b, 0, g0, r1);
    p0 := |g0| + |P5|;
    assert p0 == TokenAt(b, 0).1;
    p1 := NextWord(b, p0, r1, g1, w, r2);
    p2 := NextWord(b, p1, r2, g2, h, r3);
    p3 := NextWord(b, p2, r3, g3, m, r4);
  }

  // Any well-formed file is read back exactly, however its header is spaced and
  // commented, whatever bytes its raster starts with, and whatever follows it.
  lemma ParseWritten(l: Layout, w: nat, h: nat, maxval: nat, raster: seq<Byte>, tail: seq<Byte>)
    requires l.Proper() && w < USIZE && h < USIZE && w * h < USIZE && maxval < USIZE && |raster| == w * h
    ensures Parse(l.Header(w, h, maxval) + raster + tail)
         == if maxval > 255 then Err(MaxvalTooBig(maxval))
            else if |l.Header(w, h, maxval) + raster| >= USIZE then Err(Stops)
            else Ok(Image(w, h, raster))
  {
    var b := l.Header(w, h, maxval) + raster + tail;
    Regroup(l, w, h, maxval, raster, tail);
    assert IsSpace(l.sep);
    hide Layout.Header, Layout.Proper, TokenAt, WordAt, RasterAt, Stands, IsSpace, File, P5;
    var p0, p1, p2, p3 := HeaderRead(b, l, w, h, maxval, raster + tail);
    RasterRead(b, p3, l.sep, raster, tail, w, h);
    assert |b| == |l.Header(w, h, maxval)| + |raster| + |tail|;
  }

  lemma RasterRead(b: seq<Byte>, pos: nat, sep: Byte, raster: seq<Byte>, tail: seq<Byte>, w: nat, h: nat)
    requires Stands(b, pos, [sep] + (raster + tail)) && IsSpace(sep) && |raster| == w * h < USIZE
    ensures RasterAt(b, pos, w, h) == if pos + 1 + |raster| >= USIZE then Err(Stops) else Ok(Image(w, h, raster))
  {
    StandsAt(b, pos, [sep] + (raster + tail), 0);
    Pieces(b, pos, [sep], raster + tail);
    Pieces(b, pos + 1, raster, tail);
    hide IsSpace;
  }

  // ------------------------------------------------------------ exactly the well-formed files

  // Where the four header tokens start and end.
  datatype Marks = Marks(s0: nat, e0: nat, s1: nat, e1: nat, s2: nat, e2: nat, s3: nat, e3: nat)

  // The bytes from `from` to s are white space and comments, those from s to e
  // a token followed by white space or the end of the file.
  ghost predicate TokenMarked(b: seq<Byte>, from: nat, s: nat, e: nat) {
    from <= s < e <= |b| && IsGap(b[from..s]) && IsToken(b[s..e]) && Ends(b, e)
  }

  ghost predicate WordMarked(b: seq<Byte>, from: nat, s: nat, e: nat, n: nat) {
    TokenMarked(b, from, s, e) && ParseWord(b[s..e]) == Some(n)
  }

  // The header: "P5", the two sizes and a maximum, spaced and commented.
  ghost predicate HeaderMarked(b: seq<Byte>, k: Marks, w: nat, h: nat, maxval: nat) {
    && TokenMarked(b, 0, k.s0, k.e0) && b[k.s0..k.e0] == P5
    && WordMarked(b, k.e0, k.s1, k.e1, w) && WordMarked(b, k.e1, k.s2, k.e2, h) && WordMarked(b, k.e2, k.s3, k.e3, maxval)
  }

  function RasterStart(b: seq<Byte>, e: nat): nat { if e < |b| then e + 1 else e }

  // The raster, after one separating byte unless the file ends with the header;
  // anything may follow it.
  ghost predicate RasterMarked(b: seq<Byte>, e: nat, img: Image) {
    var start := RasterStart(b, e);
    && img.w * img.h < USIZE && start <= start + img.w * img.h <= |b| && start + img.w * img.h < USIZE
    && b[start..start + img.w * img.h] == img.pixels
  }

  ghost predicate WellFormed(b: seq<Byte>, img: Image) {
    exists k: Marks, maxval: nat ::
      maxval <= 255 && HeaderMarked(b, k, img.w, img.h, maxval) && RasterMarked(b, k.e3, img)
  }

  lemma MarkedRead(b: seq<Byte>, from: nat, s: nat, e: nat)
    requires TokenMarked(b, from, s, e)
    ensures TokenAt(b, from) == (Some(b[s..e]), e)
  {
    hide IsGap, IsSpace, IsToken, TokenAt, Ends;
    TokenRead(b, from, b[from..s], b[s..e]);
  }

  // What SkipGap passed is a gap.
  lemma {:induction false} SkippedIsGap(b: seq<Byte>, from: nat)
    requires from <= |b| && SkipGap(b, from) < |b|
    ensures IsGap(b[from..SkipGap(b, from)])
    decreases |b| - from
  {
    var s := SkipGap(b, from);
    if from < s {
      var g := b[from..s];
      if IsSpace(b[from]) {
        SkippedIsGap(b, from + 1);
        assert g[1..] == b[from + 1..s];
      } else {
        var e := LineEnd(b, from + 1);
        LineIn(b, from, from + 1, s);
        SkippedIsGap(b, e + 1);
        assert g[e - from + 1..] == b[e + 1..s];
      }
    }
  }

  // A comment that is passed ends with a newline inside what was passed.
  lemma LineIn(b: seq<Byte>, from: nat, k: nat, s: nat)
    requires from < |b| && b[from] == HASH && k == from + 1 && s == SkipGap(b, from) < |b|
    ensures var e := LineEnd(b, k); e < s && s == SkipGap(b, e + 1) && LineEnd(b[from..s], 1) == e - from
  {
    var e := LineEnd(b, k);
    LineStops(b, k);
    assert s == SkipGap(b, e);
    assert e < |b|;
    LineSlice(b, from, s, 1);
  }

  lemma {:induction false} LineStops(b: seq<Byte>, k: nat)
    requires k <= |b|
    ensures LineEnd(b, k) < |b| ==> b[LineEnd(b, k)] == NEWLINE
    ensures SkipGap(b, |b|) == |b|
    decreases |b| - k
  {
    if k < |b| && b[k] != NEWLINE {
      LineStops(b, k + 1);
    }
  }

  lemma {:induction false} LineSlice(b: seq<Byte>, from: nat, s: nat, k: nat)
    requires from + k <= s <= |b| && LineEnd(b, from + k) < s
    ensures LineEnd(b[from..s], k) == LineEnd(b, from + k) - from
    decreases s - from - k
  {
    var g := b[from..s];
    if from + k < s {
      assert g[k] == b[from + k];
      if b[from + k] != NEWLINE {
        LineSlice(b, from, s, k + 1);
      }
    }
  }

  lemma {:induction false} TokenBytes(b: seq<Byte>, s: nat)
    requires s <= |b|
    ensures Ends(b, TokenEnd(b, s)) && forall i :: s <= i < TokenEnd(b, s) ==> !IsSpace(b[i])
    decreases |b| - s
  {
    if s < |b| && !IsSpace(b[s]) {
      TokenBytes(b, s + 1);
    }
  }

  lemma {:induction false} SkipStops(b: seq<Byte>, from: nat)
    requires from <= |b|
    ensures SkipGap(b, from) < |b| ==> !IsSpace(b[SkipGap(b, from)]) && b[SkipGap(b, from)] != HASH
    decreases |b| - from
  {
    if from < |b| {
      if IsSpace(b[from]) {
        SkipStops(b, from + 1);
      } else if b[from] == HASH {
        SkipStops(b, LineEnd(b, from + 1));
      }
    }
  }

  // A token that is read is marked.
  lemma ReadMarked(b: seq<Byte>, from: nat)
    requires from <= |b| && TokenAt(b, from).0.Some?
    ensures var s := SkipGap(b, from);
            s < |b| && TokenMarked(b, from, s, TokenAt(b, from).1) && b[s..TokenAt(b, from).1] == TokenAt(b, from).0.value
  {
    hide IsGap;
    var s := SkipGap(b, from);
    SkippedIsGap(b, from);
    SkipStops(b, from);
    TokenBytes(b, s);
    assert TokenEnd(b, s) > s;
  }

  // The parser accepts exactly the well-formed files, and returns their sizes
  // and raster.
  lemma ParseIff(b: seq<Byte>, img: Image)
    ensures Parse(b) == Ok(img) <==> WellFormed(b, img)
  {
    if Parse(b) == Ok(img) {
      ParsedIsWellFormed(b, img);
    }
    if WellFormed(b, img) {
      var k: Marks, maxval: nat :| maxval <= 255 && HeaderMarked(b, k, img.w, img.h, maxval) && RasterMarked(b, k.e3, img);
      WellFormedParses(b, k, maxval, img);
    }
  }

  lemma WellFormedParses(b: seq<Byte>, k: Marks, maxval: nat, img: Image)
    requires maxval <= 255 && HeaderMarked(b, k, img.w, img.h, maxval) && RasterMarked(b, k.e3, img)
    ensures Parse(b) == Ok(img)
  {
    hide TokenAt, WordAt, HeaderMarked, IsSpace;
    HeaderMarkedRead(b, k, img.w, img.h, maxval);
  }

  // A marked header is what the parser reads.
  lemma HeaderMarkedRead(b: seq<Byte>, k: Marks, w: nat, h: nat, maxval: nat)
    requires HeaderMarked(b, k, w, h, maxval)
    ensures k.e0 <= |b| && TokenAt(b, 0) == (Some(P5), k.e0)
    ensures k.e1 <= |b| && WordAt(b, k.e0) == (Ok(w), k.e1)
    ensures k.e2 <= |b| && WordAt(b, k.e1) == (Ok(h), k.e2)
    ensures k.e3 <= |b| && WordAt(b, k.e2) == (Ok(maxval), k.e3) && (k.e3 < |b| ==> IsSpace(b[k.e3]))
  {
    hide TokenMarked, TokenAt, WordAt, ParseWord, IsSpace;
    MarkedRead(b, 0, k.s0, k.e0);
    WordMarkedRead(b, k.e0, k.s1, k.e1, w);
    WordMarkedRead(b, k.e1, k.s2, k.e2, h);
    WordMarkedRead(b, k.e2, k.s3, k.e3, maxval);
    MarkedEnds(b, k.e2, k.s3, k.e3);
  }

  lemma MarkedEnds(b: seq<Byte>, from: nat, s: nat, e: nat)
    requires TokenMarked(b, from, s, e)
    ensures from <= s < e <= |b| && (e < |b| ==> IsSpace(b[e]))
  {
  }

  lemma WordMarkedRead(b: seq<Byte>, from: nat, s: nat, e: nat, n: nat)
    requires WordMarked(b, from, s, e, n)
    ensures from <= e <= |b| && WordAt(b, from) == (Ok(n), e)
  {
    hide ParseWord, TokenAt, IsGap, IsToken;
    MarkedRead(b, from, s, e);
  }

  lemma ReadWordMarked(b: seq<Byte>, from: nat) returns (s: nat)
    requires from <= |b| && WordAt(b, from).0.Ok?
    ensures WordMarked(b, from, s, WordAt(b, from).1, WordAt(b, from).0.value)
  {
    hide ParseWord, TokenMarked;
    s := SkipGap(b, from);
    ReadMarked(b, from);
    hide TokenAt, SkipGap;
  }

  lemma ParsedIsWellFormed(b: seq<Byte>, img: Image)
    requires Parse(b) == Ok(img)
    ensures WellFormed(b, img)
  {
    hide TokenAt, WordAt, RasterAt, WordMarked, TokenMarked, RasterMarked, SkipGap;
    var p0 := TokenAt(b, 0).1;
    var p1, p2 := WordAt(b, p0).1, WordAt(b, WordAt(b, p0).1).1;
    var maxval, p3 := WordAt(b, p2).0.value, WordAt(b, p2).1;
    var w, h := WordAt(b, p0).0.value, WordAt(b, p1).0.value;
    var k := HeaderParsed(b, p0, p1, p2, p3, w, h, maxval);
    hide HeaderMarked;
    RasterParsed(b, p3, w, h, img);
  }

  lemma HeaderParsed(b: seq<Byte>, p0: nat, p1: nat, p2: nat, p3: nat, w: nat, h: nat, maxval: nat) returns (k: Marks)
    requires TokenAt(b, 0) == (Some(P5), p0) && p0 <= |b| && WordAt(b, p0) == (Ok(w), p1) && p1 <= |b|
    requires WordAt(b, p1) == (Ok(h), p2) && p2 <= |b| && WordAt(b, p2) == (Ok(maxval), p3)
    ensures HeaderMarked(b, k, w, h, maxval) && k.e3 == p3 <= |b| && (p3 < |b| ==> IsSpace(b[p3]))
  {
    hide TokenAt, WordAt, WordMarked, TokenMarked, SkipGap, IsSpace, P5;
    ReadMarked(b, 0);
    var s1 := ReadWordMarked(b, p0);
    var s2 := ReadWordMarked(b, p1);
    var s3 := ReadWordMarked(b, p2);
    MarkedWordEnds(b, p2, s3, p3, maxval);
    k := Marks(SkipGap(b, 0), p0, s1, p1, s2, p2, s3, p3);
  }

  lemma RasterParsed(b: seq<Byte>, pos: nat, w: nat, h: nat, img: Image)
    requires pos <= |b| && (pos < |b| ==> IsSpace(b[pos])) && RasterAt(b, pos, w, h) == Ok(img)
    ensures img.w == w && img.h == h && RasterMarked(b, pos, img)
  {
    hide IsSpace;
  }

  lemma MarkedWordEnds(b: seq<Byte>, from: nat, s: nat, e: nat, n: nat)
    requires WordMarked(b, from, s, e, n)
    ensures e <= |b| && (e < |b| ==> IsSpace(b[e]))
  {
    MarkedEnds(b, from, s, e);
  }

  // The program stops on exactly the files whose header is well-formed and whose
  // raster would end at 2^64 or beyond, although the size itself is below that.
  lemma StopsIff(b: seq<Byte>)
    ensures Parse(b) == Err(Stops) <==>
      exists k: Marks, w: nat, h: nat, maxval: nat :: Unaddressable(b, k, w, h, maxval)
  {
    hide Parse, Unaddressable;
    if Parse(b) == Err(Stops) {
      StopsOnHeader(b);
    }
    if k: Marks, w: nat, h: nat, maxval: nat :| Unaddressable(b, k, w, h, maxval) {
      HeaderStops(b, k, w, h, maxval);
    }
  }

  lemma HeaderStops(b: seq<Byte>, k: Marks, w: nat, h: nat, maxval: nat)
    requires Unaddressable(b, k, w, h, maxval)
    ensures Parse(b) == Err(Stops)
  {
    hide TokenAt, WordAt, HeaderMarked, IsSpace;
    HeaderMarkedRead(b, k, w, h, maxval);
  }

  ghost predicate Unaddressable(b: seq<Byte>, k: Marks, w: nat, h: nat, maxval: nat) {
    maxval <= 255 && HeaderMarked(b, k, w, h, maxval) && w * h < USIZE <= RasterStart(b, k.e3) + w * h
  }

  lemma StopsOnHeader(b: seq<Byte>)
    requires Parse(b) == Err(Stops)
    ensures exists k: Marks, w: nat, h: nat, maxval: nat :: Unaddressable(b, k, w, h, maxval)
  {
    hide TokenAt, WordAt, WordMarked, TokenMarked, SkipGap;
    WordErrors(b);
    var p0 := TokenAt(b, 0).1;
    var p1, p2 := WordAt(b, p0).1, WordAt(b, WordAt(b, p0).1).1;
    var maxval, p3 := WordAt(b, p2).0.value, WordAt(b, p2).1;
    var w, h := WordAt(b, p0).0.value, WordAt(b, p1).0.value;
    var k := HeaderParsed(b, p0, p1, p2, p3, w, h, maxval);
    hide HeaderMarked, IsSpace;
    assert Unaddressable(b, k, w, h, maxval);
  }

  // Reading a token never stops.
  lemma WordErrors(b: seq<Byte>)
    ensures forall pos: nat :: pos <= |b| ==> WordAt(b, pos).0 != Err(Stops)
  {
    hide TokenAt, ParseWord;
  }

  // What a well-formed header leads to, error by error.
  lemma HeaderDecides(b: seq<Byte>, k: Marks, w: nat, h: nat, maxval: nat)
    requires HeaderMarked(b, k, w, h, maxval)
    ensures var start := if k.e3 < |b| then k.e3 + 1 else k.e3;
            Parse(b) == if maxval > 255 then Err(MaxvalTooBig(maxval))
                        else if w * h >= USIZE then Err(SizeOverflow)
                        else if start + w * h >= USIZE then Err(Stops)
                        else if |b| < start + w * h then Err(TooShort(w * h, |b| - start))
                        else (Size(w, h); Ok(Image(w, h, b[start..start + w * h])))
  {
    hide TokenAt, WordAt, HeaderMarked, IsSpace;
    HeaderMarkedRead(b, k, w, h, maxval);
  }

  // A file of white space and comments is empty, and one whose first token is
  // not "P5" is not of the format.
  lemma MagicDecides(b: seq<Byte>, s: nat, e: nat)
    ensures IsGap(b) ==> Parse(b) == Err(Empty)
    ensures TokenMarked(b, 0, s, e) && b[s..e] != [80, 53] ==> Parse(b) == Err(NotP5)
  {
    hide IsGap, IsSpace, WordAt, TokenMarked, TokenAt;
    if IsGap(b) {
      StandsWhole(b);
      GapSkipped(b, 0, b);
      AllGap(b);
    }
    if TokenMarked(b, 0, s, e) { MarkedRead(b, 0, s, e); }
  }

  lemma AllGap(b: seq<Byte>)
    requires SkipGap(b, 0) == SkipGap(b, |b|)
    ensures TokenAt(b, 0).0 == None
  {
  }
}

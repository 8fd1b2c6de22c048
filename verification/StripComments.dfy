/**
  The comment stripper of tests/architecture.rs. It scans bytes but pushes each kept byte as a
  character of that code, so its output read as bytes again is the UTF-8 encoding of what it pushed.
*/
module StripComments {
  type Byte = x: int | 0 <= x < 256

  const SLASH: Byte := 47
  const STAR: Byte := 42
  const NEWLINE: Byte := 10

  lemma BytesOfTheMarks()
    ensures SLASH == '/' as int && STAR == '*' as int && NEWLINE == '\n' as int
  {
  }

  // ---- the grammar ---------------------------------------------------------------------------------

  datatype Token = Code(b: Byte) | Line(text: seq<Byte>) | Block(text: seq<Byte>, closed: bool)

  function RenderToken(t: Token): (s: seq<Byte>)
    ensures s != []
  {
    match t
    case Code(b) => [b]
    case Line(text) => [SLASH, SLASH] + text
    case Block(text, closed) => [SLASH, STAR] + text + if closed then [STAR, SLASH] else []
  }

  function Render(ts: seq<Token>): seq<Byte> {
    if ts == [] then [] else RenderToken(ts[0]) + Render(ts[1..])
  }

  predicate NoClose(text: seq<Byte>) {
    forall j | 0 <= j < |text| - 1 :: !(text[j] == STAR && text[j + 1] == SLASH)
  }

  /**
    A line comment runs to a newline or the end, a block comment to the first close
    or the end, and a slash outside them opens neither.
  */
  predicate WellFormed(ts: seq<Token>) {
    ts != [] ==> WellFormed(ts[1..]) && HeadFits(ts)
  }

  predicate HeadFits(ts: seq<Token>)
    requires ts != []
  {
    match ts[0]
    case Code(b) => b == SLASH && |ts| > 1 ==> ts[1].Code? && ts[1].b != SLASH && ts[1].b != STAR
    case Line(text) => NEWLINE !in text && (|ts| > 1 ==> ts[1] == Code(NEWLINE))
    case Block(text, closed) => NoClose(text) && (!closed ==> |ts| == 1)
  }

  /** What is outside the comments. */
  function Codes(ts: seq<Token>): seq<Byte> {
    if ts == [] then [] else (if ts[0].Code? then [ts[0].b] else []) + Codes(ts[1..])
  }

  // ---- reading -------------------------------------------------------------------------------------

  /** The next newline from `i` on, or the end. */
  function LineEnd(s: seq<Byte>, i: nat): (e: nat)
    requires i <= |s|
    ensures i <= e <= |s| && (e < |s| ==> s[e] == NEWLINE) && forall j | i <= j < e :: s[j] != NEWLINE
    decreases |s| - i
  {
    if i < |s| && s[i] != NEWLINE then LineEnd(s, i + 1) else i
  }

  predicate ClosesAt(s: seq<Byte>, i: nat) {
    i + 1 < |s| && s[i] == STAR && s[i + 1] == SLASH
  }

  /** The next close from `i` on, or the end. */
  function BlockEnd(s: seq<Byte>, i: nat): (e: nat)
    requires i <= |s|
    ensures i <= e <= |s| && (e < |s| ==> ClosesAt(s, e)) && forall j | i <= j < e :: !ClosesAt(s, j)
    decreases |s| - i
  {
    if i < |s| && !ClosesAt(s, i) then BlockEnd(s, i + 1) else i
  }

  predicate OpensLine(s: seq<Byte>, i: nat) {
    i + 1 < |s| && s[i] == SLASH && s[i + 1] == SLASH
  }

  predicate OpensBlock(s: seq<Byte>, i: nat) {
    i + 1 < |s| && s[i] == SLASH && s[i + 1] == STAR
  }

  /** The token that starts at `i` and where the next one does. */
  function TokenAt(s: seq<Byte>, i: nat): (r: (Token, nat))
    requires i < |s|
    ensures i < r.1 <= |s|
  {
    if OpensLine(s, i) then
      var e := LineEnd(s, i + 2);
      (Line(s[i + 2..e]), e)
    else if OpensBlock(s, i) then
      var e := BlockEnd(s, i + 2);
      if e < |s| then (Block(s[i + 2..e], true), e + 2) else (Block(s[i + 2..], false), e)
    else (Code(s[i]), i + 1)
  }

  function Tokens(s: seq<Byte>, i: nat): seq<Token>
    requires i <= |s|
    decreases |s| - i
  {
    if i == |s| then []
    else
      var (t, next) := TokenAt(s, i);
      [t] + Tokens(s, next)
  }

  function Strip(s: seq<Byte>): seq<Byte> {
    Codes(Tokens(s, 0))
  }

  lemma LineRenders(s: seq<Byte>, i: nat, e: nat)
    requires OpensLine(s, i) && i + 2 <= e <= |s|
    ensures RenderToken(Line(s[i + 2..e])) == s[i..e]
  {
    assert s[i..e] == [s[i], s[i + 1]] + s[i + 2..e];
  }

  lemma BlockRenders(s: seq<Byte>, i: nat, e: nat)
    requires OpensBlock(s, i) && i + 2 <= e <= |s| && (e < |s| ==> ClosesAt(s, e))
    ensures e < |s| ==> RenderToken(Block(s[i + 2..e], true)) == s[i..e + 2]
    ensures e == |s| ==> RenderToken(Block(s[i + 2..], false)) == s[i..]
  {
    if e < |s| {
      assert s[i..e + 2] == [s[i], s[i + 1]] + s[i + 2..e] + [s[e], s[e + 1]];
    } else {
      assert s[i..] == [s[i], s[i + 1]] + s[i + 2..] + [];
    }
  }

  lemma TokenAtRenders(s: seq<Byte>, i: nat)
    requires i < |s|
    ensures RenderToken(TokenAt(s, i).0) == s[i..TokenAt(s, i).1]
  {
    if OpensLine(s, i) {
      LineRenders(s, i, LineEnd(s, i + 2));
    } else if OpensBlock(s, i) {
      BlockRenders(s, i, BlockEnd(s, i + 2));
    }
  }

  lemma BlockTextHasNoClose(s: seq<Byte>, i: nat, e: nat)
    requires i <= e <= |s| && forall j | i <= j < e :: !ClosesAt(s, j)
    ensures NoClose(s[i..e])
  {
    var text := s[i..e];
    forall j | 0 <= j < |text| - 1 ensures !(text[j] == STAR && text[j + 1] == SLASH) {
      assert !ClosesAt(s, i + j);
    }
  }

  /** A token read fits in front of what is read after it. */
  lemma TokenFits(s: seq<Byte>, i: nat, rest: seq<Token>)
    requires i < |s| && WellFormed(rest)
    requires TokenAt(s, i).1 == |s| ==> rest == []
    requires TokenAt(s, i).1 < |s| ==> rest != [] && rest[0] == TokenAt(s, TokenAt(s, i).1).0
    ensures WellFormed([TokenAt(s, i).0] + rest)
  {
    var (t, next) := TokenAt(s, i);
    var ts := [t] + rest;
    assert ts[1..] == rest && (rest != [] ==> ts[1] == rest[0]);
    if t.Block? {
      BlockTextHasNoClose(s, i + 2, BlockEnd(s, i + 2));
      assert !t.closed ==> t.text == s[i + 2..BlockEnd(s, i + 2)];
    }
  }

  lemma {:induction false} TokensAreWellFormed(s: seq<Byte>, i: nat)
    requires i <= |s|
    ensures WellFormed(Tokens(s, i))
    decreases |s| - i
  {
    if i < |s| {
      TokensAreWellFormed(s, TokenAt(s, i).1);
      TokenFits(s, i, Tokens(s, TokenAt(s, i).1));
    }
  }

  lemma RenderCons(t: Token, rest: seq<Token>)
    ensures Render([t] + rest) == RenderToken(t) + Render(rest)
  {
    assert ([t] + rest)[1..] == rest;
  }

  lemma Join(s: seq<Byte>, i: nat, j: nat)
    requires i <= j <= |s|
    ensures s[i..j] + s[j..] == s[i..]
  {
  }

  /** Reading splits the source into tokens and loses nothing. */
  lemma {:induction false} TokensReadBack(s: seq<Byte>, i: nat)
    requires i <= |s|
    ensures Render(Tokens(s, i)) == s[i..]
    decreases |s| - i
  {
    if i < |s| {
      var (t, next) := TokenAt(s, i);
      TokensReadBack(s, next);
      TokenAtRenders(s, i);
      RenderCons(t, Tokens(s, next));
      Join(s, i, next);
    }
  }

  lemma {:induction false} LineEndsAt(s: seq<Byte>, i: nat, e: nat)
    requires i <= e <= |s| && (forall j | i <= j < e :: s[j] != NEWLINE) && (e < |s| ==> s[e] == NEWLINE)
    ensures LineEnd(s, i) == e
    decreases e - i
  {
    if i < e {
      LineEndsAt(s, i + 1, e);
    }
  }

  lemma {:induction false} BlockEndsAt(s: seq<Byte>, i: nat, e: nat)
    requires i <= e <= |s| && (forall j | i <= j < e :: !ClosesAt(s, j)) && (e < |s| ==> ClosesAt(s, e))
    ensures BlockEnd(s, i) == e
    decreases e - i
  {
    if i < e {
      BlockEndsAt(s, i + 1, e);
    }
  }

  /** `r` stands in `s` at `i`. */
  predicate Shows(s: seq<Byte>, i: nat, r: seq<Byte>) {
    i + |r| <= |s| && forall k | 0 <= k < |r| :: s[i + k] == r[k]
  }

  lemma ShowsBoth(s: seq<Byte>, i: nat, a: seq<Byte>, b: seq<Byte>)
    requires Shows(s, i, a + b)
    ensures Shows(s, i, a) && Shows(s, i + |a|, b)
  {
    forall k | 0 <= k < |a| ensures s[i + k] == a[k] {
      assert (a + b)[k] == a[k];
    }
    forall k | 0 <= k < |b| ensures s[i + |a| + k] == b[k] {
      assert s[i + (|a| + k)] == (a + b)[|a| + k];
    }
  }

  /** The source from `i` on is `ts`, written out. */
  predicate Spells(s: seq<Byte>, i: nat, ts: seq<Token>)
    decreases |ts|
  {
    if ts == [] then i == |s| else Shows(s, i, RenderToken(ts[0])) && Spells(s, i + |RenderToken(ts[0])|, ts[1..])
  }

  lemma {:induction false} RenderSpells(s: seq<Byte>, i: nat, ts: seq<Token>)
    requires i + |Render(ts)| == |s| && Shows(s, i, Render(ts))
    ensures Spells(s, i, ts)
    decreases |ts|
  {
    if ts != [] {
      ShowsBoth(s, i, RenderToken(ts[0]), Render(ts[1..]));
      RenderSpells(s, i + |RenderToken(ts[0])|, ts[1..]);
    }
  }

  lemma {:induction false} SpelledIsRead(s: seq<Byte>, i: nat, ts: seq<Token>)
    requires i <= |s| && WellFormed(ts) && Spells(s, i, ts)
    ensures Tokens(s, i) == ts
    decreases |ts|
  {
    if ts != [] {
      FirstToken(s, i, ts);
      SpelledIsRead(s, i + |RenderToken(ts[0])|, ts[1..]);
    }
  }

  /** Well-formed tokens read back as themselves: the grammar is unambiguous. */
  lemma TokensAreUnique(ts: seq<Token>)
    requires WellFormed(ts)
    ensures Tokens(Render(ts), 0) == ts
    ensures Strip(Render(ts)) == Codes(ts)
  {
    RenderSpells(Render(ts), 0, ts);
    SpelledIsRead(Render(ts), 0, ts);
  }

  lemma FirstToken(s: seq<Byte>, i: nat, ts: seq<Token>)
    requires ts != [] && HeadFits(ts) && Shows(s, i, RenderToken(ts[0]))
    requires |ts| == 1 ==> i + |RenderToken(ts[0])| == |s|
    requires |ts| > 1 ==> Shows(s, i + |RenderToken(ts[0])|, RenderToken(ts[1]))
    ensures TokenAt(s, i) == (ts[0], i + |RenderToken(ts[0])|)
  {
    FirstByte(s, i, ts[0]);
    if |ts| > 1 {
      FirstByte(s, i + |RenderToken(ts[0])|, ts[1]);
    }
    match ts[0]
    case Code(b) => FirstCode(s, i, b);
    case Line(text) => FirstLine(s, i, text);
    case Block(text, closed) => FirstBlock(s, i, text, closed);
  }

  lemma FirstByte(s: seq<Byte>, i: nat, t: Token)
    requires Shows(s, i, RenderToken(t))
    ensures i < |s| && (t.Code? ==> s[i] == t.b)
  {
    assert s[i + 0] == RenderToken(t)[0];
  }

  lemma FirstCode(s: seq<Byte>, i: nat, b: Byte)
    requires i < |s| && s[i] == b
    requires b == SLASH && i + 1 < |s| ==> s[i + 1] != SLASH && s[i + 1] != STAR
    ensures TokenAt(s, i) == (Code(b), i + 1)
  {
  }

  lemma FirstLine(s: seq<Byte>, i: nat, text: seq<Byte>)
    requires Shows(s, i, RenderToken(Line(text))) && NEWLINE !in text
    requires i + 2 + |text| < |s| ==> s[i + 2 + |text|] == NEWLINE
    ensures TokenAt(s, i) == (Line(text), i + 2 + |text|)
  {
    var r, e := RenderToken(Line(text)), i + 2 + |text|;
    assert s[i + 0] == r[0] && s[i + 1] == r[1];
    forall j | i + 2 <= j < e ensures s[j] == text[j - i - 2] {
      assert s[i + (j - i)] == r[j - i];
    }
    LineEndsAt(s, i + 2, e);
    assert s[i + 2..e] == text;
  }

  lemma BlockShows(s: seq<Byte>, i: nat, text: seq<Byte>, closed: bool)
    requires Shows(s, i, RenderToken(Block(text, closed)))
    ensures OpensBlock(s, i) && Shows(s, i + 2, text) && (closed ==> ClosesAt(s, i + 2 + |text|))
  {
    var r := RenderToken(Block(text, closed));
    assert s[i + 0] == r[0] && s[i + 1] == r[1];
    forall k | 0 <= k < |text| ensures s[i + 2 + k] == text[k] {
      assert s[i + (k + 2)] == r[k + 2];
    }
    if closed {
      assert s[i + (2 + |text|)] == r[2 + |text|] && s[i + (3 + |text|)] == r[3 + |text|];
    }
  }

  lemma FirstBlock(s: seq<Byte>, i: nat, text: seq<Byte>, closed: bool)
    requires Shows(s, i, RenderToken(Block(text, closed))) && NoClose(text)
    requires !closed ==> i + |RenderToken(Block(text, closed))| == |s|
    ensures TokenAt(s, i) == (Block(text, closed), i + |RenderToken(Block(text, closed))|)
  {
    var e := i + 2 + |text|;
    BlockShows(s, i, text, closed);
    forall j | i + 2 <= j < e ensures !ClosesAt(s, j) {
      var k := j - i - 2;
      assert s[i + 2 + k] == text[k];
      if j + 1 < e {
        assert s[i + 2 + (k + 1)] == text[k + 1];
      }
    }
    assert |RenderToken(Block(text, closed))| == if closed then |text| + 4 else |text| + 2;
    BlockEndsAt(s, i + 2, e);
    assert s[i + 2..e] == text && (!closed ==> s[i + 2..] == text);
  }

  // ---- what is kept ----------------------------------------------------------------------------------

  /** No two neighbours open a comment. */
  predicate Clean(u: seq<Byte>) {
    forall j | 0 <= j < |u| :: !OpensLine(u, j) && !OpensBlock(u, j)
  }

  lemma {:induction false} CodesAreClean(ts: seq<Token>)
    requires WellFormed(ts)
    ensures Clean(Codes(ts))
    ensures ts != [] && ts[0].Code? ==> Codes(ts) != [] && Codes(ts)[0] == ts[0].b
    decreases |ts|
  {
    if ts != [] {
      var rest := Codes(ts[1..]);
      CodesAreClean(ts[1..]);
      if !ts[0].Code? {
        assert Codes(ts) == rest;
      } else {
        var u := [ts[0].b] + rest;
        forall j | 0 <= j < |u| ensures !OpensLine(u, j) && !OpensBlock(u, j) {
          if j > 0 {
            assert !OpensLine(rest, j - 1) && !OpensBlock(rest, j - 1);
          } else if |ts| == 1 {
            assert rest == [];
          }
        }
      }
    }
  }

  /** Nothing that opens a comment is left, not even across a comment taken out. */
  lemma NoCommentIsLeft(s: seq<Byte>)
    ensures Clean(Strip(s))
  {
    TokensAreWellFormed(s, 0);
    CodesAreClean(Tokens(s, 0));
  }

  /** Where the kept bytes stand in the source. */
  function Kept(s: seq<Byte>, i: nat): seq<nat>
    requires i <= |s|
    decreases |s| - i
  {
    if i == |s| then []
    else
      var (t, next) := TokenAt(s, i);
      (if t.Code? then [i] else []) + Kept(s, next)
  }

  /** The output is a subsequence of the source: the bytes at `Kept`, in order. */
  lemma {:induction false} OutputIsSubsequence(s: seq<Byte>, i: nat)
    requires i <= |s|
    ensures var out, kept := Codes(Tokens(s, i)), Kept(s, i);
      && |out| == |kept|
      && (forall k | 0 <= k < |kept| :: i <= kept[k] < |s| && out[k] == s[kept[k]])
      && (forall k, l | 0 <= k < l < |kept| :: kept[k] < kept[l])
    decreases |s| - i
  {
    if i < |s| {
      OutputIsSubsequence(s, TokenAt(s, i).1);
    }
  }

  // ---- stripping again ----------------------------------------------------------------------------------

  /** The bytes of the characters pushed: two of them for a code of 128 or more. */
  function Encode(u: seq<Byte>): seq<Byte> {
    if u == [] then []
    else (if u[0] < 128 then [u[0]] else [192 + u[0] / 64, 128 + u[0] % 64]) + Encode(u[1..])
  }

  lemma {:induction false} CleanIsKept(u: seq<Byte>, i: nat)
    requires i <= |u| && Clean(u)
    ensures Codes(Tokens(u, i)) == u[i..]
    decreases |u| - i
  {
    if i < |u| {
      CleanIsKept(u, i + 1);
      assert !OpensLine(u, i) && !OpensBlock(u, i);
      assert Tokens(u, i)[1..] == Tokens(u, i + 1);
      assert u[i..] == [u[i]] + u[i + 1..];
    }
  }

  predicate Ascii(u: seq<Byte>) {
    forall j | 0 <= j < |u| :: u[j] < 128
  }

  lemma {:induction false} EncodeShape(u: seq<Byte>)
    ensures Ascii(u) ==> Encode(u) == u
    ensures !Ascii(u) ==> |Encode(u)| > |u|
    ensures |Encode(u)| >= |u|
    ensures u != [] ==> Encode(u) != [] && (Encode(u)[0] == u[0] || Encode(u)[0] >= 128)
  {
    if u != [] {
      EncodeShape(u[1..]);
      if Ascii(u) {
        assert Ascii(u[1..]);
      } else if u[0] < 128 {
        assert !Ascii(u[1..]);
      }
    }
  }

  lemma {:induction false} EncodeIsClean(u: seq<Byte>)
    requires Clean(u)
    ensures Clean(Encode(u))
  {
    if u != [] {
      var rest := u[1..];
      forall j | 0 <= j < |rest| ensures !OpensLine(rest, j) && !OpensBlock(rest, j) {
        assert !OpensLine(u, j + 1) && !OpensBlock(u, j + 1);
      }
      EncodeIsClean(rest);
      EncodeShape(rest);
      var first, e := if u[0] < 128 then [u[0]] else [192 + u[0] / 64, 128 + u[0] % 64], Encode(rest);
      forall j | 0 <= j < |first + e| ensures !OpensLine(first + e, j) && !OpensBlock(first + e, j) {
        if j >= |first| {
          assert !OpensLine(e, j - |first|) && !OpensBlock(e, j - |first|);
        } else if |u| > 1 {
          assert !OpensLine(u, 0) && !OpensBlock(u, 0);
        } else {
          assert e == [];
        }
      }
    }
  }

  lemma {:induction false} EncodeKeepsNonAscii(u: seq<Byte>)
    requires !Ascii(u)
    ensures !Ascii(Encode(u))
  {
    if u[0] < 128 {
      assert !Ascii(u[1..]);
      EncodeKeepsNonAscii(u[1..]);
      var j :| 0 <= j < |Encode(u[1..])| && Encode(u[1..])[j] >= 128;
      assert Encode(u)[j + 1] == Encode(u[1..])[j];
    } else {
      assert Encode(u)[0] >= 128;
    }
  }

  /** Every byte of the source that is outside the comments is ASCII. */
  predicate AsciiCode(s: seq<Byte>) {
    forall k | 0 <= k < |Kept(s, 0)| :: Kept(s, 0)[k] < |s| && s[Kept(s, 0)[k]] < 128
  }

  lemma AsciiCodeIsAsciiOutput(s: seq<Byte>)
    ensures AsciiCode(s) <==> Ascii(Strip(s))
  {
    OutputIsSubsequence(s, 0);
    var out, kept := Strip(s), Kept(s, 0);
    forall k | 0 <= k < |kept| ensures kept[k] < |s| && out[k] == s[kept[k]] {
    }
  }

  /** Stripping the text returned once more leaves it alone exactly when the source is ASCII outside its comments. */
  lemma StripAgainExactly(s: seq<Byte>)
    ensures var text := Encode(Strip(s));
      Encode(Strip(text)) == text <==> AsciiCode(s)
    ensures Strip(Encode(Strip(s))) == Strip(s) <==> AsciiCode(s)
  {
    var text := Encode(Strip(s));
    NoCommentIsLeft(s);
    EncodeIsClean(Strip(s));
    CleanIsKept(text, 0);
    EncodeShape(Strip(s));
    EncodeShape(text);
    AsciiCodeIsAsciiOutput(s);
    if !Ascii(Strip(s)) {
      EncodeKeepsNonAscii(Strip(s));
    }
  }

  /** The two bytes of a Latin small e with acute become four. */
  lemma NonAsciiGrows()
    ensures Strip([195, 169]) == [195, 169] && Strip(Encode(Strip([195, 169]))) == [195, 131, 194, 169]
  {
    var s: seq<Byte> := [195, 169];
    CleanIsKept(s, 0);
    assert s[1..] == [169] && s[1..][1..] == [];
    assert Encode([]) == [];
    assert Encode(s[1..]) == [194, 169];
    assert Encode(s) == [195, 131] + [194, 169];
    CleanIsKept(Encode(s), 0);
  }

  // ---- the loop -------------------------------------------------------------------------------------------

  /** Past a line comment. */
  method SkipLine(bytes: seq<Byte>, at: nat) returns (i: nat)
    requires OpensLine(bytes, at)
    ensures i == LineEnd(bytes, at + 2)
  {
    i := at;
    assert LineEnd(bytes, at) == LineEnd(bytes, at + 1) == LineEnd(bytes, at + 2);
    while i < |bytes| && bytes[i] != NEWLINE
      invariant i <= |bytes| && LineEnd(bytes, i) == LineEnd(bytes, at + 2)
    {
      i := i + 1;
    }
  }

  /** Past a block comment and its close, if it has one. */
  method SkipBlock(bytes: seq<Byte>, at: nat) returns (i: nat)
    requires OpensBlock(bytes, at)
    ensures var e := BlockEnd(bytes, at + 2);
      i == if e < |bytes| then e + 2 else e
  {
    i := at + 2;
    while i + 1 < |bytes| && !(bytes[i] == STAR && bytes[i + 1] == SLASH)
      invariant i <= |bytes| && BlockEnd(bytes, i) == BlockEnd(bytes, at + 2)
    {
      i := i + 1;
    }
    assert i + 1 == |bytes| ==> BlockEnd(bytes, i) == BlockEnd(bytes, i + 1);
    i := if i + 2 < |bytes| then i + 2 else |bytes|;
  }

  lemma CodesFrom(out: seq<Byte>, s: seq<Byte>, i: nat)
    requires i < |s|
    ensures var (t, next) := TokenAt(s, i);
      out + Codes(Tokens(s, i)) == (if t.Code? then out + [t.b] else out) + Codes(Tokens(s, next))
  {
    var rest := Tokens(s, TokenAt(s, i).1);
    assert Tokens(s, i)[1..] == rest;
    assert out + ([s[i]] + Codes(rest)) == out + [s[i]] + Codes(rest);
    assert [] + Codes(rest) == Codes(rest);
  }

  method StripSource(bytes: seq<Byte>) returns (out: seq<Byte>)
    ensures out == Strip(bytes)
  {
    out := [];
    var i := 0;
    while i < |bytes|
      invariant i <= |bytes| && out + Codes(Tokens(bytes, i)) == Strip(bytes)
    {
      CodesFrom(out, bytes, i);
      if i + 1 < |bytes| && bytes[i] == SLASH && bytes[i + 1] == SLASH {
        i := SkipLine(bytes, i);
      } else if i + 1 < |bytes| && bytes[i] == SLASH && bytes[i + 1] == STAR {
        i := SkipBlock(bytes, i);
      } else {
        out := out + [bytes[i]];
        i := i + 1;
      }
    }
  }
}

/**
 The comment and literal mask of a text put together from code, literals and comments, and what
 plain brace counting finds in it.
 */
module MaskedText {
  import opened BraceMatch

  /** A character of a literal, or an escape: a backslash and any character. */
  datatype Unit = Plain(c: char) | Escape(c: char)

  datatype Piece =
    | CodeChar(c: char)
    | Literal(quote: char, units: seq<Unit>)
    | LineComment(inside: string)
    | BlockComment(inside: string)

  function UnitText(u: Unit): string {
    match u
    case Plain(c) => [c]
    case Escape(c) => ['\\', c]
  }

  function UnitsText(s: seq<Unit>): string {
    if s == [] then "" else UnitText(s[0]) + UnitsText(s[1..])
  }

  function PieceText(p: Piece): string {
    match p
    case CodeChar(c) => [c]
    case Literal(q, s) => [q] + UnitsText(s) + [q]
    case LineComment(s) => "//" + s
    case BlockComment(s) => "/*" + s + "*/"
  }

  function TextOf(ps: seq<Piece>): string {
    if ps == [] then "" else PieceText(ps[0]) + TextOf(ps[1..])
  }

  /** A line end stays, anything else is blanked. */
  function Blanked(s: string): string {
    if s == "" then "" else [if s[0] == '\n' then '\n' else ' '] + Blanked(s[1..])
  }

  /** An escape is blanked whole, a line end in it included. */
  function UnitMask(u: Unit): string {
    match u
    case Plain(c) => [if c == '\n' then '\n' else ' ']
    case Escape(_) => "  "
  }

  function UnitsMask(s: seq<Unit>): string {
    if s == [] then "" else UnitMask(s[0]) + UnitsMask(s[1..])
  }

  /** Code stays as it is; of a literal and of a comment only the line ends do. */
  function PieceMask(p: Piece): string {
    match p
    case CodeChar(c) => [c]
    case Literal(_, s) => " " + UnitsMask(s) + " "
    case LineComment(s) => "  " + Blanked(s)
    case BlockComment(s) => "  " + Blanked(s) + "  "
  }

  function MaskOf(ps: seq<Piece>): string {
    if ps == [] then "" else PieceMask(ps[0]) + MaskOf(ps[1..])
  }

  /** The piece is what it says, in front of that text: code is no quote and begins no comment, a
      literal ends at its quote, a line comment at the line's end, a block comment at its first
      end mark. */
  predicate Stays(p: Piece, rest: string) {
    match p
    case CodeChar(c) => c != '\"' && c != '\'' && !(c == '/' && rest != "" && (rest[0] == '/' || rest[0] == '*'))
    case Literal(q, s) => (q == '\"' || q == '\'') && Inside(q, s)
    case LineComment(s) => '\n' !in s && (rest == "" || rest[0] == '\n')
    case BlockComment(s) => Unended(s)
  }

  /** Neither the quote nor a bare backslash in it. */
  predicate Inside(q: char, s: seq<Unit>) {
    forall i :: 0 <= i < |s| && s[i].Plain? ==> s[i].c != q && s[i].c != '\\'
  }

  /** No end mark of a block comment in it. */
  predicate Unended(s: string) {
    forall k :: 0 <= k < |s| ==> !(s[k] == '*' && (if k + 1 < |s| then s[k + 1] == '/' else false))
  }

  predicate WellPut(ps: seq<Piece>) {
    ps == [] || (Stays(ps[0], TextOf(ps[1..])) && WellPut(ps[1..]))
  }

  /** From offset `i` on, the text is this. */
  ghost predicate From(t: string, i: nat, s: string) {
    i <= |t| && t[i..] == s
  }

  lemma FromOn(t: string, i: nat, a: string, b: string)
    requires From(t, i, a + b)
    ensures i + |a| <= |t| && From(t, i + |a|, b)
    ensures forall k :: 0 <= k < |a| ==> t[i + k] == a[k]
  {
    assert t[i..][|a|..] == t[i + |a|..];
    forall k | 0 <= k < |a|
      ensures t[i + k] == a[k]
    {
      assert t[i..][k] == (a + b)[k];
    }
  }

  // ----- One step of the mask -----

  lemma EndQuote(t: string, i: nat, q: char)
    requires i < |t| && t[i] == q && (q == '\"' || q == '\'')
    ensures Mask(t, i, InLiteral(q)) == [' '] + Mask(t, i + 1, InCode)
  {
  }

  lemma LineEnds(t: string, i: nat)
    requires i <= |t| && (i < |t| ==> t[i] == '\n')
    ensures Mask(t, i, InLine) == Mask(t, i, InCode)
  {
  }

  lemma LineGoesOn(t: string, i: nat)
    requires i < |t| && t[i] != '\n'
    ensures Mask(t, i, InLine) == [' '] + Mask(t, i + 1, InLine)
  {
  }

  lemma BlockEnds(t: string, i: nat)
    requires i + 1 < |t| && t[i] == '*' && t[i + 1] == '/'
    ensures Mask(t, i, InBlock) == [' ', ' '] + Mask(t, i + 2, InCode)
  {
  }

  lemma BlockGoesOn(t: string, i: nat)
    requires i < |t| && !Pair(t, i, '*', '/')
    ensures Mask(t, i, InBlock) == [if t[i] == '\n' then '\n' else ' '] + Mask(t, i + 1, InBlock)
  {
  }

  lemma CodeOpens(t: string, i: nat)
    requires i < |t|
    ensures t[i] == '\"' || t[i] == '\'' ==> Mask(t, i, InCode) == [' '] + Mask(t, i + 1, InLiteral(t[i]))
    ensures Pair(t, i, '/', '/') ==> Mask(t, i, InCode) == [' ', ' '] + Mask(t, i + 2, InLine)
    ensures Pair(t, i, '/', '*') ==> Mask(t, i, InCode) == [' ', ' '] + Mask(t, i + 2, InBlock)
    ensures t[i] != '\"' && t[i] != '\'' && !Pair(t, i, '/', '/') && !Pair(t, i, '/', '*') ==>
      Mask(t, i, InCode) == [t[i]] + Mask(t, i + 1, InCode)
  {
  }

  lemma {:induction false} LiteralMask(t: string, i: nat, q: char, s: seq<Unit>, rest: string)
    requires From(t, i, UnitsText(s) + ([q] + rest)) && (q == '\"' || q == '\'') && Inside(q, s)
    ensures var j := i + |UnitsText(s)| + 1;
      From(t, j, rest) && Mask(t, i, InLiteral(q)) == UnitsMask(s) + [' '] + Mask(t, j, InCode)
    decreases |s|
  {
    hide Mask, From, UnitsMask, UnitMask, UnitsText, UnitText, Inside;
    TextUnit(s);
    MaskUnit(s);
    if s == [] {
      assert UnitsText(s) + ([q] + rest) == [q] + rest;
      FromOn(t, i, [q], rest);
      assert t[i + 0] == [q][0];
      EndQuote(t, i, q);
      assert UnitsMask(s) + [' '] == [' '];
    } else {
      var u := UnitText(s[0]);
      UnitThenRest(s, q, rest);
      FromOn(t, i, u, UnitsText(s[1..]) + ([q] + rest));
      InsideTail(q, s);
      LiteralMask(t, i + |u|, q, s[1..], rest);
      OneUnit(t, i, q, s[0]);
      var j := i + |UnitsText(s)| + 1;
      Regroup(UnitMask(s[0]), UnitsMask(s[1..]), [' '], Mask(t, j, InCode));
    }
  }

  lemma InsideTail(q: char, s: seq<Unit>)
    requires s != [] && Inside(q, s)
    ensures Inside(q, s[1..]) && (s[0].Plain? ==> s[0].c != q && s[0].c != '\\')
  {
    assert forall i :: 0 <= i < |s[1..]| ==> s[1..][i] == s[i + 1];
  }

  lemma UnitThenRest(s: seq<Unit>, q: char, rest: string)
    requires s != []
    ensures UnitsText(s) + ([q] + rest) == UnitText(s[0]) + (UnitsText(s[1..]) + ([q] + rest))
  {
    hide UnitText;
  }

  lemma TextUnit(s: seq<Unit>)
    ensures UnitsText(s) == if s == [] then "" else UnitText(s[0]) + UnitsText(s[1..])
  {
  }

  lemma MaskUnit(s: seq<Unit>)
    ensures UnitsMask(s) == if s == [] then "" else UnitMask(s[0]) + UnitsMask(s[1..])
  {
  }

  lemma Regroup(a: string, b: string, c: string, d: string)
    ensures a + (b + c + d) == (a + b) + c + d
  {
  }

  lemma OneUnit(t: string, i: nat, q: char, u: Unit)
    requires u.Plain? ==> u.c != q && u.c != '\\'
    requires i + |UnitText(u)| <= |t| && forall k :: 0 <= k < |UnitText(u)| ==> t[i + k] == UnitText(u)[k]
    ensures Mask(t, i, InLiteral(q)) == UnitMask(u) + Mask(t, i + |UnitText(u)|, InLiteral(q))
  {
    hide Mask;
    assert t[i + 0] == UnitText(u)[0];
    match u
    case Plain(_) => LiteralGoesOn(t, i, q);
    case Escape(_) => LiteralEscapes(t, i, q);
  }

  lemma LiteralGoesOn(t: string, i: nat, q: char)
    requires i < |t| && t[i] != q && t[i] != '\\'
    ensures Mask(t, i, InLiteral(q)) == [if t[i] == '\n' then '\n' else ' '] + Mask(t, i + 1, InLiteral(q))
  {
  }

  lemma LiteralEscapes(t: string, i: nat, q: char)
    requires i + 1 < |t| && t[i] == '\\'
    ensures Mask(t, i, InLiteral(q)) == "  " + Mask(t, i + 2, InLiteral(q))
  {
  }

  lemma FromHead(t: string, i: nat, s: string)
    requires From(t, i, s)
    ensures i <= |t| && (s == "" <==> i == |t|) && (s != "" ==> t[i] == s[0])
  {
  }

  lemma {:induction false} LineMask(t: string, i: nat, s: string, rest: string)
    requires From(t, i, s + rest) && '\n' !in s && (rest == "" || rest[0] == '\n')
    ensures From(t, i + |s|, rest) && Mask(t, i, InLine) == Blanked(s) + Mask(t, i + |s|, InCode)
    decreases |s|
  {
    hide Mask, From, Blanked;
    FromOn(t, i, s, rest);
    BlankedStep(s);
    if s == "" {
      FromHead(t, i, rest);
      LineEnds(t, i);
    } else {
      assert t[i + 0] == s[0];
      LineGoesOn(t, i);
      assert s + rest == [s[0]] + (s[1..] + rest);
      FromOn(t, i, [s[0]], s[1..] + rest);
      assert s[0] in s && forall c :: c in s[1..] ==> c in s;
      LineMask(t, i + 1, s[1..], rest);
    }
  }

  lemma {:induction false} BlockMask(t: string, i: nat, s: string, rest: string)
    requires From(t, i, s + ("*/" + rest))
    requires Unended(s)
    ensures var j := i + |s| + 2;
      From(t, j, rest) && Mask(t, i, InBlock) == Blanked(s) + [' ', ' '] + Mask(t, j, InCode)
    decreases |s|
  {
    hide Mask, From, Unended, Blanked, Pair;
    BlankedStep(s);
    if s == "" {
      assert s + ("*/" + rest) == "*/" + rest;
      FromOn(t, i, "*/", rest);
      assert t[i + 0] == "*/"[0] && t[i + 1] == "*/"[1];
      BlockEnds(t, i);
    } else {
      assert s + ("*/" + rest) == [s[0]] + (s[1..] + ("*/" + rest));
      FromOn(t, i, [s[0]], s[1..] + ("*/" + rest));
      assert t[i + 0] == [s[0]][0];
      UnendedTail(s);
      BlockMask(t, i + 1, s[1..], rest);
      NoEndHere(t, i, s, rest);
      BlockGoesOn(t, i);
      var j := i + |s| + 2;
      var one := [if s[0] == '\n' then '\n' else ' '];
      Regroup(one, Blanked(s[1..]), [' ', ' '], Mask(t, j, InCode));
    }
  }

  lemma UnendedTail(s: string)
    requires s != "" && Unended(s)
    ensures Unended(s[1..])
  {
    forall k | 0 <= k < |s[1..]|
      ensures !(s[1..][k] == '*' && (if k + 1 < |s[1..]| then s[1..][k + 1] == '/' else false))
    {
      assert s[1..][k] == s[k + 1];
      if k + 1 < |s[1..]| { assert s[1..][k + 1] == s[k + 2]; }
    }
  }

  lemma BlankedStep(s: string)
    ensures Blanked(s) == if s == "" then "" else [if s[0] == '\n' then '\n' else ' '] + Blanked(s[1..])
  {
  }

  lemma NoEndHere(t: string, i: nat, s: string, rest: string)
    requires s != "" && From(t, i, s + ("*/" + rest))
    requires Unended(s)
    ensures i < |t| && !Pair(t, i, '*', '/')
  {
    var all := s + ("*/" + rest);
    assert t[i..][0] == all[0] && t[i..][1] == all[1];
    assert t[i] == all[0] && t[i + 1] == all[1];
    if |s| == 1 { assert all[1] == '*'; } else { assert all[1] == s[1]; }
  }

  lemma {:induction false} PiecesMask(t: string, i: nat, ps: seq<Piece>)
    requires From(t, i, TextOf(ps)) && WellPut(ps)
    ensures Mask(t, i, InCode) == MaskOf(ps)
    decreases |ps|
  {
    hide Mask, From, Stays, PieceText, PieceMask, TextOf, WellPut, MaskOf;
    if ps == [] {
      NoPieces(t, i);
    } else {
      PiecesStep(ps);
      var p, rest := ps[0], TextOf(ps[1..]);
      var j := i + |PieceText(p)|;
      FromOn(t, i, PieceText(p), rest);
      PiecesMask(t, j, ps[1..]);
      PieceIsMasked(t, i, p, rest);
    }
  }

  lemma NoPieces(t: string, i: nat)
    requires From(t, i, TextOf([]))
    ensures Mask(t, i, InCode) == MaskOf([])
  {
  }

  lemma PiecesStep(ps: seq<Piece>)
    requires ps != [] && WellPut(ps)
    ensures TextOf(ps) == PieceText(ps[0]) + TextOf(ps[1..]) && MaskOf(ps) == PieceMask(ps[0]) + MaskOf(ps[1..])
    ensures Stays(ps[0], TextOf(ps[1..])) && WellPut(ps[1..])
  {
    hide Stays, PieceText, PieceMask;
  }

  lemma PieceIsMasked(t: string, i: nat, p: Piece, rest: string)
    requires From(t, i, PieceText(p) + rest) && Stays(p, rest)
    ensures i + |PieceText(p)| <= |t|
    ensures Mask(t, i, InCode) == PieceMask(p) + Mask(t, i + |PieceText(p)|, InCode)
  {
    hide Mask, From, UnitsText, UnitsMask, Blanked;
    FromOn(t, i, PieceText(p), rest);
    match p
    case CodeChar(c) =>
      assert t[i + 0] == [c][0];
      FromHead(t, i + 1, rest);
      CodeOpens(t, i);
    case Literal(q, s) => LiteralIsMasked(t, i, q, s, rest);
    case LineComment(s) => LineIsMasked(t, i, s, rest);
    case BlockComment(s) => BlockIsMasked(t, i, s, rest);
  }

  lemma LiteralIsMasked(t: string, i: nat, q: char, s: seq<Unit>, rest: string)
    requires From(t, i, [q] + UnitsText(s) + [q] + rest) && Stays(Literal(q, s), rest)
    ensures i + |UnitsText(s)| + 2 <= |t|
    ensures Mask(t, i, InCode) == " " + UnitsMask(s) + " " + Mask(t, i + |UnitsText(s)| + 2, InCode)
  {
    hide Mask, From, UnitsText, UnitsMask;
    assert [q] + UnitsText(s) + [q] + rest == [q] + (UnitsText(s) + ([q] + rest));
    FromOn(t, i, [q], UnitsText(s) + ([q] + rest));
    assert t[i + 0] == [q][0];
    LiteralMask(t, i + 1, q, s, rest);
    FromHead(t, i + 1 + |UnitsText(s)| + 1, rest);
    CodeOpens(t, i);
    var after := Mask(t, i + |UnitsText(s)| + 2, InCode);
    assert [' '] + (UnitsMask(s) + [' '] + after) == " " + UnitsMask(s) + " " + after;
  }

  lemma LineIsMasked(t: string, i: nat, s: string, rest: string)
    requires From(t, i, "//" + s + rest) && Stays(LineComment(s), rest)
    ensures i + 2 + |s| <= |t|
    ensures Mask(t, i, InCode) == "  " + Blanked(s) + Mask(t, i + 2 + |s|, InCode)
  {
    hide Mask, From, Blanked;
    assert "//" + s + rest == "//" + (s + rest);
    FromOn(t, i, "//", s + rest);
    assert t[i + 0] == "//"[0] && t[i + 1] == "//"[1];
    LineMask(t, i + 2, s, rest);
    FromHead(t, i + 2 + |s|, rest);
    CodeOpens(t, i);
    var after := Mask(t, i + 2 + |s|, InCode);
    assert [' ', ' '] + (Blanked(s) + after) == "  " + Blanked(s) + after;
  }

  lemma BlockIsMasked(t: string, i: nat, s: string, rest: string)
    requires From(t, i, "/*" + s + "*/" + rest) && Stays(BlockComment(s), rest)
    ensures i + |s| + 4 <= |t|
    ensures Mask(t, i, InCode) == "  " + Blanked(s) + "  " + Mask(t, i + |s| + 4, InCode)
  {
    hide Mask, From, Blanked;
    assert "/*" + s + "*/" + rest == "/*" + (s + ("*/" + rest));
    FromOn(t, i, "/*", s + ("*/" + rest));
    assert t[i + 0] == "/*"[0] && t[i + 1] == "/*"[1];
    BlockMask(t, i + 2, s, rest);
    FromHead(t, i + 2 + |s| + 2, rest);
    CodeOpens(t, i);
    var after := Mask(t, i + |s| + 4, InCode);
    assert [' ', ' '] + (Blanked(s) + [' ', ' '] + after) == "  " + Blanked(s) + "  " + after;
  }

  /** Of a text put together from code, literals and comments, the mask keeps the code as it is and
      of the rest only the line ends, those in an escape excepted. */
  lemma MaskOfPieces(ps: seq<Piece>)
    requires WellPut(ps)
    ensures Masked(TextOf(ps)) == MaskOf(ps)
  {
    var t := TextOf(ps);
    assert t[0..] == t;
    PiecesMask(t, 0, ps);
  }

  // ----- What counting finds -----

  /** Braces opened minus braces closed from `i` up to `k`. */
  function Opened(m: string, i: nat, k: nat): int
    requires i <= k <= |m|
  {
    multiset(m[i..k])['{'] as int - multiset(m[i..k])['}'] as int
  }

  /** At `k` a brace is closed with just one open since `i`. */
  predicate ClosesAt(m: string, i: nat, k: nat)
    requires i <= |m|
  {
    i <= k < |m| && m[k] == '}' && Opened(m, i, k) == 1
  }

  lemma OpenedNext(m: string, i: nat, k: nat)
    requires i <= k < |m|
    ensures Opened(m, i, k + 1) == Opened(m, i, k) + (if m[k] == '{' then 1 else if m[k] == '}' then -1 else 0)
  {
    assert m[i..k + 1] == m[i..k] + [m[k]];
  }

  lemma {:induction false} CountFrom(m: string, i: nat, k: nat)
    requires i <= k <= |m| && forall j :: i <= j < k ==> !ClosesAt(m, i, j)
    ensures var e := Count(m, k, Opened(m, i, k));
      if e == -1 then forall j :: i <= j < |m| ==> !ClosesAt(m, i, j)
      else k < e <= |m| && ClosesAt(m, i, e - 1) && forall j :: i <= j < e - 1 ==> !ClosesAt(m, i, j)
    decreases |m| - k
  {
    hide Opened;
    if k < |m| {
      OpenedNext(m, i, k);
      if !ClosesAt(m, i, k) { CountFrom(m, i, k + 1); }
    }
  }

  /** Counting from an offset answers just past the first brace that closes the one first left open,
      and minus one when there is none. */
  lemma CountMeans(m: string, i: nat)
    requires i <= |m|
    ensures var e := Count(m, i, 0);
      if e == -1 then forall k :: i <= k < |m| ==> !ClosesAt(m, i, k)
      else i < e <= |m| && ClosesAt(m, i, e - 1) && forall k :: i <= k < e - 1 ==> !ClosesAt(m, i, k)
  {
    assert m[i..i] == "";
    CountFrom(m, i, i);
  }
}

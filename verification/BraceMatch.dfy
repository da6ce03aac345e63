/**
 The lexer-aware brace matcher and the comment/literal mask, on characters.

 `Mask` is the mask as one transition per step of the lexer; the two methods are the
 loops as written, and the matcher is proved to do on the raw text what plain brace
 counting does on the masked text.
 */
module BraceMatch {

  datatype Mode = InCode | InLiteral(quote: char) | InLine | InBlock

  predicate IsQuote(c: char) { c == '\"' || c == '\'' }

  predicate Pair(t: string, i: nat, a: char, b: char) {
    i + 1 < |t| && t[i] == a && t[i + 1] == b
  }

  /** Blanking keeps line ends, except an escaped one inside a literal. */
  function Blank(c: char): char { if c == '\n' then c else ' ' }

  /** What the mask makes of `t[i..]` when the lexer stands at `i` in `mode`. */
  function Mask(t: string, i: nat, mode: Mode): (m: string)
    requires i <= |t|
    ensures |m| == |t| - i
    decreases |t| - i, if mode == InLine then 1 else 0
  {
    if i == |t| then []
    else match mode
      case InCode =>
        if IsQuote(t[i]) then [' '] + Mask(t, i + 1, InLiteral(t[i]))
        else if Pair(t, i, '/', '/') then [' ', ' '] + Mask(t, i + 2, InLine)
        else if Pair(t, i, '/', '*') then [' ', ' '] + Mask(t, i + 2, InBlock)
        else [t[i]] + Mask(t, i + 1, InCode)
      case InLiteral(q) =>
        if t[i] == '\\' then (if i + 1 < |t| then [' ', ' '] + Mask(t, i + 2, mode) else [' '])
        else [Blank(t[i])] + Mask(t, i + 1, if t[i] == q then InCode else mode)
      case InLine =>
        if t[i] == '\n' then Mask(t, i, InCode) else [' '] + Mask(t, i + 1, mode)
      case InBlock =>
        if Pair(t, i, '*', '/') then [' ', ' '] + Mask(t, i + 2, InCode)
        else [Blank(t[i])] + Mask(t, i + 1, mode)
  }

  function Masked(t: string): string { Mask(t, 0, InCode) }

  /** `m` is the mask of `t`, and the lexer stands at `i` in `mode`. */
  ghost predicate Stands(t: string, m: string, i: nat, mode: Mode) {
    i <= |t| == |m| && m[i..] == Mask(t, i, mode)
  }

  lemma StandsAtStart(t: string)
    ensures Stands(t, Masked(t), 0, InCode)
  {
  }

  lemma StandsInside(t: string, m: string, i: nat, mode: Mode)
    requires Stands(t, m, i, mode)
    ensures i <= |t| == |m|
  {
  }

  /** One step of the lexer: how many characters it takes, and the mode after it. */
  function Width(t: string, i: nat, mode: Mode): nat
    requires i < |t|
  {
    match mode
    case InCode => if Pair(t, i, '/', '/') || Pair(t, i, '/', '*') then 2 else 1
    case InLiteral(q) => if t[i] == '\\' && i + 1 < |t| then 2 else 1
    case InLine => if t[i] == '\n' then 0 else 1
    case InBlock => if Pair(t, i, '*', '/') then 2 else 1
  }

  function NextMode(t: string, i: nat, mode: Mode): Mode
    requires i < |t|
  {
    match mode
    case InCode =>
      if IsQuote(t[i]) then InLiteral(t[i])
      else if Pair(t, i, '/', '/') then InLine
      else if Pair(t, i, '/', '*') then InBlock
      else mode
    case InLiteral(q) => if t[i] != '\\' && t[i] == q then InCode else mode
    case InLine => if t[i] == '\n' then InCode else mode
    case InBlock => if Pair(t, i, '*', '/') then InCode else mode
  }

  /** What one step leaves of the characters it takes. */
  lemma MaskStep(t: string, m: string, i: nat, mode: Mode)
    requires Stands(t, m, i, mode) && i < |t|
    ensures var (w, next) := (Width(t, i, mode), NextMode(t, i, mode));
            && i + w <= |t| && Stands(t, m, i + w, next)
            && (w >= 1 ==> m[i] == if mode == InCode && next == InCode then t[i]
                                   else if mode.InLiteral? && t[i] == '\\' then ' '
                                   else Blank(t[i]))
            && (w == 2 ==> m[i + 1] == ' ')
            && (w == 2 && mode == InCode ==> t[i] != '\n' && t[i + 1] != '\n')
            && (w == 2 && mode == InBlock ==> t[i] != '\n' && t[i + 1] != '\n')
  {
    var (w, next) := (Width(t, i, mode), NextMode(t, i, mode));
    var tail := m[i..];
    assert tail[w..] == m[i + w..];
    assert tail[0] == m[i];
    if w == 2 { assert tail[1] == m[i + 1]; }
    if w >= 1 { assert tail[w..] == Mask(t, i + w, next); }
  }

  /** The mask of everything before `i` is in place, the rest is untouched. */
  ghost predicate Partly(t: string, m: string, chars: seq<char>, i: nat) {
    && |chars| == |m| == |t|
    && (forall k :: 0 <= k < |t| ==> chars[k] == if k < i then m[k] else t[k])
  }

  /** The mask as written: a list of characters, blanked in place. */
  method CodeWithoutCommentsAndStrings(text: string) returns (masked: string)
    ensures masked == Masked(text)
  {
    hide Stands, Mask;
    ghost var m := Masked(text);
    StandsAtStart(text);
    var chars := new char[|text|](k requires 0 <= k < |text| => text[k]);
    var i, n := 0, |text|;
    while i < n
      invariant i <= n + 1 && Partly(text, m, chars[..], i)
      invariant i <= n ==> Stands(text, m, i, InCode)
      decreases n - i
    {
      MaskStep(text, m, i, InCode);
      var c := text[i];
      if IsQuote(c) {
        chars[i] := ' ';
        i := i + 1;
        i := BlankLiteral(text, m, chars, i, c);
      } else if Pair(text, i, '/', '/') {
        chars[i], chars[i + 1] := ' ', ' ';
        i := i + 2;
        i := BlankLine(text, m, chars, i);
      } else if Pair(text, i, '/', '*') {
        chars[i], chars[i + 1] := ' ', ' ';
        i := i + 2;
        i := BlankBlock(text, m, chars, i);
      } else {
        i := i + 1;
      }
    }
    masked := chars[..];
  }

  lemma LiteralStep(t: string, m: string, i: nat, quote: char)
    requires Stands(t, m, i, InLiteral(quote)) && i < |t| && IsQuote(quote)
    ensures |m| == |t| && m[i] == if t[i] == '\n' then '\n' else ' '
    ensures t[i] == '\\' && i + 1 < |t| ==> m[i + 1] == ' ' && Stands(t, m, i + 2, InLiteral(quote))
    ensures t[i] == quote ==> Stands(t, m, i + 1, InCode)
    ensures t[i] != quote && t[i] != '\\' ==> Stands(t, m, i + 1, InLiteral(quote))
  {
    StandsInside(t, m, i, InLiteral(quote));
    hide Stands, Mask;
    MaskStep(t, m, i, InLiteral(quote));
  }

  /** The loop over a literal; an escape may step past the end of the text. */
  method BlankLiteral(text: string, ghost m: string, chars: array<char>, from: nat, quote: char) returns (i: nat)
    requires Stands(text, m, from, InLiteral(quote)) && Partly(text, m, chars[..], from) && IsQuote(quote)
    modifies chars
    ensures from <= i <= |text| + 1 && Partly(text, m, chars[..], i)
    ensures i <= |text| ==> Stands(text, m, i, InCode)
  {
    StandsInside(text, m, from, InLiteral(quote));
    hide Stands, Mask;
    i := from;
    while i < |text|
      invariant from <= i <= |text| + 1 && Partly(text, m, chars[..], i)
      invariant i <= |text| ==> Stands(text, m, i, InLiteral(quote))
      decreases |text| - i
    {
      LiteralStep(text, m, i, quote);
      if text[i] == '\\' {
        chars[i] := ' ';
        if i + 1 < |text| { chars[i + 1] := ' '; }
        i := i + 2;
        continue;
      }
      chars[i] := if text[i] == '\n' then '\n' else ' ';
      if text[i] == quote {
        i := i + 1;
        return;
      }
      i := i + 1;
    }
    AtTheEnd(text, m, i);
  }

  /** At the end of the text the mode no longer matters. */
  lemma AtTheEnd(t: string, m: string, i: nat)
    requires |m| == |t| && i >= |t|
    ensures i <= |t| ==> forall mode :: Stands(t, m, i, mode)
  {
  }

  method BlankLine(text: string, ghost m: string, chars: array<char>, from: nat) returns (i: nat)
    requires Stands(text, m, from, InLine) && Partly(text, m, chars[..], from)
    modifies chars
    ensures from <= i <= |text| && Partly(text, m, chars[..], i) && Stands(text, m, i, InCode)
  {
    StandsInside(text, m, from, InLine);
    hide Stands, Mask;
    i := from;
    while i < |text| && text[i] != '\n'
      invariant from <= i <= |text| && Partly(text, m, chars[..], i) && Stands(text, m, i, InLine)
    {
      MaskStep(text, m, i, InLine);
      chars[i] := ' ';
      i := i + 1;
    }
    if i < |text| { MaskStep(text, m, i, InLine); } else { AtTheEnd(text, m, i); }
  }

  method BlankBlock(text: string, ghost m: string, chars: array<char>, from: nat) returns (i: nat)
    requires Stands(text, m, from, InBlock) && Partly(text, m, chars[..], from)
    modifies chars
    ensures from <= i <= |text| && Partly(text, m, chars[..], i) && Stands(text, m, i, InCode)
  {
    StandsInside(text, m, from, InBlock);
    hide Stands, Mask;
    i := from;
    while i < |text|
      invariant from <= i <= |text| && Partly(text, m, chars[..], i) && Stands(text, m, i, InBlock)
    {
      MaskStep(text, m, i, InBlock);
      if Pair(text, i, '*', '/') {
        chars[i], chars[i + 1] := ' ', ' ';
        i := i + 2;
        return;
      }
      chars[i] := if text[i] == '\n' then '\n' else ' ';
      i := i + 1;
    }
    AtTheEnd(text, m, i);
  }

  // ----- The matcher -----

  /** Plain counting from `i`, `depth` braces deep: just past the brace that closes the
      first one opened, -1 when there is none. */
  function Count(m: string, i: nat, depth: int): int
    requires i <= |m|
    decreases |m| - i
  {
    if i == |m| then -1
    else if m[i] == '{' then Count(m, i + 1, depth + 1)
    else if m[i] == '}' then (if depth == 1 then i + 1 else Count(m, i + 1, depth - 1))
    else Count(m, i + 1, depth)
  }

  /** Counting passes over everything that is not code. */
  lemma CountStep(t: string, m: string, i: nat, mode: Mode, depth: int)
    requires Stands(t, m, i, mode) && i < |t| && !(mode == InCode && NextMode(t, i, mode) == InCode)
    ensures i + Width(t, i, mode) <= |t| && Count(m, i, depth) == Count(m, i + Width(t, i, mode), depth)
    ensures Stands(t, m, i + Width(t, i, mode), NextMode(t, i, mode))
  {
    MaskStep(t, m, i, mode);
    if Width(t, i, mode) == 2 { assert Count(m, i, depth) == Count(m, i + 1, depth); }
  }

  /** The first line end from `i` on, the end of the text when there is none. */
  function FindNewline(t: string, i: nat): (k: nat)
    requires i <= |t|
    ensures i <= k <= |t|
    decreases |t| - i
  {
    if i == |t| || t[i] == '\n' then i else FindNewline(t, i + 1)
  }

  /** Just past the first end of a block comment from `i` on. */
  function FindBlockEnd(t: string, i: nat): (k: nat)
    requires i <= |t|
    ensures i <= k <= |t|
    decreases |t| - i
  {
    if i == |t| then i else if Pair(t, i, '*', '/') then i + 2 else FindBlockEnd(t, i + 1)
  }

  lemma {:induction false} CountOverLine(t: string, m: string, i: nat, depth: int)
    requires Stands(t, m, i, InLine)
    ensures Stands(t, m, FindNewline(t, i), InCode) && Count(m, i, depth) == Count(m, FindNewline(t, i), depth)
    decreases |t| - i
  {
    if i < |t| {
      CountStep(t, m, i, InLine, depth);
      if t[i] != '\n' { CountOverLine(t, m, i + 1, depth); }
    }
  }

  lemma {:induction false} CountOverBlock(t: string, m: string, i: nat, depth: int)
    requires Stands(t, m, i, InBlock)
    ensures Stands(t, m, FindBlockEnd(t, i), InCode) && Count(m, i, depth) == Count(m, FindBlockEnd(t, i), depth)
    decreases |t| - i
  {
    if i < |t| {
      CountStep(t, m, i, InBlock, depth);
      if !Pair(t, i, '*', '/') { CountOverBlock(t, m, i + 1, depth); }
    }
  }

  /** The loop over a literal; both ways out may step past the end of the text. */
  method SkipLiteral(text: string, ghost m: string, from: nat, quote: char, ghost depth: int) returns (i: nat)
    requires Stands(text, m, from, InLiteral(quote)) && IsQuote(quote)
    ensures from <= i
    ensures i <= |text| ==> Stands(text, m, i, InCode) && Count(m, from, depth) == Count(m, i, depth)
    ensures i > |text| ==> Count(m, from, depth) == -1
  {
    StandsInside(text, m, from, InLiteral(quote));
    CountAtEnd(m, depth);
    hide Stands, Mask, Count;
    i := from;
    while i < |text|
      invariant from <= i
      invariant i <= |text| ==> Stands(text, m, i, InLiteral(quote)) && Count(m, from, depth) == Count(m, i, depth)
      invariant i > |text| ==> Count(m, from, depth) == -1
      decreases |text| - i
    {
      CountStep(text, m, i, InLiteral(quote), depth);
      if text[i] == '\\' {
        i := i + 2;
        continue;
      }
      if text[i] == quote { break; }
      i := i + 1;
    }
    i := i + 1;
  }

  lemma CountAtEnd(m: string, depth: int)
    ensures Count(m, |m|, depth) == -1
  {
  }

  /** A character of code counts in both texts alike. */
  lemma CountCode(t: string, m: string, i: nat, depth: int)
    requires Stands(t, m, i, InCode) && i < |t| && NextMode(t, i, InCode) == InCode
    ensures Stands(t, m, i + 1, InCode) && i + 1 <= |m|
    ensures i <= |m| && Count(m, i, depth) ==
      if t[i] == '{' then Count(m, i + 1, depth + 1)
      else if t[i] == '}' then (if depth == 1 then i + 1 else Count(m, i + 1, depth - 1))
      else Count(m, i + 1, depth)
  {
    MaskStep(t, m, i, InCode);
  }

  /** The matcher as written, on the raw text: it answers what plain counting answers on
      the masked text, -1 included, wherever the lexer stands in code. */
  method MatchBrace(text: string, open: nat) returns (end: int)
    requires open <= |text| && Stands(text, Masked(text), open, InCode)
    ensures end == Count(Masked(text), open, 0)
  {
    hide Stands, Mask, Count;
    ghost var m := Masked(text);
    var depth: int, i: nat, n := 0, open, |text|;
    while i < n
      invariant i <= n ==> Stands(text, m, i, InCode) && Count(m, open, 0) == Count(m, i, depth)
      invariant i > n ==> Count(m, open, 0) == -1
      decreases n - i
    {
      var c := text[i];
      if IsQuote(c) {
        CountStep(text, m, i, InCode, depth);
        i := SkipLiteral(text, m, i + 1, c, depth);
        continue;
      }
      if Pair(text, i, '/', '/') {
        CountStep(text, m, i, InCode, depth);
        CountOverLine(text, m, i + 2, depth);
        i := FindNewline(text, i + 2);
        continue;
      }
      if Pair(text, i, '/', '*') {
        CountStep(text, m, i, InCode, depth);
        CountOverBlock(text, m, i + 2, depth);
        i := FindBlockEnd(text, i + 2);
        continue;
      }
      CountCode(text, m, i, depth);
      if c == '{' {
        depth := depth + 1;
      } else if c == '}' {
        depth := depth - 1;
        if depth == 0 { return i + 1; }
      }
      i := i + 1;
    }
    CountAtEnd(m, depth);
    return -1;
  }

  // ----- What the mask keeps -----

  /** The mode in which the lexer comes to stand at `k`, if it does: it may pass `k` as
      the second character of an escape or of a comment mark. */
  datatype Place = Passed | At(mode: Mode)

  function PlaceOf(t: string, i: nat, mode: Mode, k: nat): Place
    requires i <= k < |t|
    decreases |t| - i, if mode == InLine then 1 else 0
  {
    if i == k && Width(t, i, mode) > 0 then At(mode)
    else
      var (w, next) := (Width(t, i, mode), NextMode(t, i, mode));
      if i + w > k then Passed else PlaceOf(t, i + w, next, k)
  }

  /** A character survives in code that opens no literal and no comment. */
  predicate Survives(t: string, k: nat)
    requires k < |t|
  {
    PlaceOf(t, 0, InCode, k) == At(InCode) && NextMode(t, k, InCode) == InCode
  }

  /** A line end is lost when it is the second character of a literal's escape. */
  predicate EscapedLineEnd(t: string, k: nat)
    requires k < |t|
  {
    && t[k] == '\n' && k > 0 && t[k - 1] == '\\'
    && PlaceOf(t, 0, InCode, k - 1).At? && PlaceOf(t, 0, InCode, k - 1).mode.InLiteral?
  }

  lemma {:induction false} PlaceMeans(t: string, m: string, i: nat, mode: Mode, k: nat)
    requires Stands(t, m, i, mode) && i <= k < |t|
    requires mode.InLiteral? ==> IsQuote(mode.quote)
    ensures var p := PlaceOf(t, i, mode, k);
            && (p == Passed ==> m[k] == ' ')
            && (p.At? ==> Stands(t, m, k, p.mode) && (p.mode.InLiteral? ==> IsQuote(p.mode.quote)))
            && (p == At(InLine) ==> t[k] != '\n')
    decreases |t| - i, if mode == InLine then 1 else 0
  {
    hide Stands, Mask;
    MaskStep(t, m, i, mode);
    var (w, next) := (Width(t, i, mode), NextMode(t, i, mode));
    if i + w <= k && !(i == k && w > 0) { PlaceMeans(t, m, i + w, next, k); }
  }

  lemma MaskedAt(t: string, k: nat)
    requires k < |t|
    ensures var m := Masked(t);
            var p := PlaceOf(t, 0, InCode, k);
            && (p == Passed ==> m[k] == ' ')
            && (p == At(InLine) ==> t[k] != '\n')
            && (p.At? && p.mode.InLiteral? ==> IsQuote(p.mode.quote))
            && (p.At? ==> m[k] == if Survives(t, k) then t[k]
                                  else if p.mode.InLiteral? && t[k] == '\\' then ' '
                                  else Blank(t[k]))
            && (Survives(t, k) ==> Stands(t, m, k, InCode))
  {
    var m := Masked(t);
    var p := PlaceOf(t, 0, InCode, k);
    PlaceMeans(t, m, 0, InCode, k);
    hide Stands, Mask, Masked;
    if p.At? { MaskStep(t, m, k, p.mode); }
  }

  lemma {:induction false} PassedIff(t: string, i: nat, mode: Mode, k: nat)
    requires i <= k < |t|
    ensures PlaceOf(t, i, mode, k) == Passed <==>
      k > i && PlaceOf(t, i, mode, k - 1).At? && Width(t, k - 1, PlaceOf(t, i, mode, k - 1).mode) == 2
    decreases |t| - i, if mode == InLine then 1 else 0
  {
    var (w, next) := (Width(t, i, mode), NextMode(t, i, mode));
    if i + w <= k && !(i == k && w > 0) { PassedIff(t, i + w, next, k); }
  }

  /** Masking keeps the length and only ever blanks; what is neither blank nor a line end
      is left exactly where the lexer reads plain code; and a line end is left exactly
      where it is not escaped inside a literal. */
  lemma MaskingOnlyBlanks(t: string)
    ensures var m := Masked(t);
            && |m| == |t|
            && (forall k :: 0 <= k < |t| ==> m[k] == t[k] || m[k] == ' ')
            && (forall k :: 0 <= k < |t| && m[k] != ' ' && m[k] != '\n' ==> Survives(t, k))
            && (forall k :: 0 <= k < |t| && Survives(t, k) ==> m[k] == t[k])
            && (forall k :: 0 <= k < |t| && t[k] == '\n' ==> (m[k] == '\n' <==> !EscapedLineEnd(t, k)))
  {
    var m := Masked(t);
    forall k | 0 <= k < |t|
      ensures m[k] == t[k] || m[k] == ' '
      ensures m[k] != ' ' && m[k] != '\n' ==> Survives(t, k)
      ensures Survives(t, k) ==> m[k] == t[k]
      ensures t[k] == '\n' ==> (m[k] == '\n' <==> !EscapedLineEnd(t, k))
    {
      MaskedCases(t, k);
    }
  }

  lemma MaskedCases(t: string, k: nat)
    requires k < |t|
    ensures var m := Masked(t);
            && (m[k] == t[k] || m[k] == ' ')
            && (m[k] != ' ' && m[k] != '\n' ==> Survives(t, k))
            && (Survives(t, k) ==> m[k] == t[k])
            && (t[k] == '\n' ==> (m[k] == '\n' <==> !EscapedLineEnd(t, k)))
  {
    MaskedAt(t, k);
    PassedIff(t, 0, InCode, k);
    hide Mask, PlaceOf;
  }

  /** The documented promise that line ends stay where they are fails for a string
      continued over a line end. */
  lemma EscapedLineEndIsLost()
    ensures var t := "\"\\\n";
            |t| == 3 && t[2] == '\n' && EscapedLineEnd(t, 2) && Masked(t) == "   "
  {
    var t := "\"\\\n";
    assert Mask(t, 3, InLiteral('\"')) == "";
    assert Mask(t, 1, InLiteral('\"')) == [' ', ' '] + Mask(t, 3, InLiteral('\"'));
    assert Mask(t, 0, InCode) == [' '] + Mask(t, 1, InLiteral('\"'));
    assert PlaceOf(t, 1, InLiteral('\"'), 1) == At(InLiteral('\"'));
  }

  /** Masked text opens no literal and no comment. */
  lemma NothingLeftToMask(t: string, k: nat)
    requires k < |t|
    ensures var m := Masked(t);
            !IsQuote(m[k]) && !Pair(m, k, '/', '/') && !Pair(m, k, '/', '*')
  {
    MaskedCases(t, k);
    if k + 1 < |t| { MaskedCases(t, k + 1); }
  }

  lemma {:induction false} CleanTextIsKept(m: string, i: nat)
    requires i <= |m|
    requires forall k :: 0 <= k < |m| ==> !IsQuote(m[k]) && !Pair(m, k, '/', '/') && !Pair(m, k, '/', '*')
    ensures Mask(m, i, InCode) == m[i..]
    decreases |m| - i
  {
    if i < |m| { CleanTextIsKept(m, i + 1); }
  }

  lemma MaskingIsIdempotent(t: string)
    ensures Masked(Masked(t)) == Masked(t)
  {
    var m := Masked(t);
    forall k | 0 <= k < |m|
      ensures !IsQuote(m[k]) && !Pair(m, k, '/', '/') && !Pair(m, k, '/', '*')
    {
      NothingLeftToMask(t, k);
    }
    CleanTextIsKept(m, 0);
  }

  /** The matcher meets its precondition at every brace the mask keeps. */
  lemma KeptBraceIsCode(t: string, k: nat)
    requires k < |t| && Masked(t)[k] == '{'
    ensures t[k] == '{' && Stands(t, Masked(t), k, InCode)
  {
    MaskedCases(t, k);
    MaskedAt(t, k);
  }
}

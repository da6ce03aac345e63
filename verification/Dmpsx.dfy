/**
 Swapping a macro's DMPSX placeholder for its command word in the vendored headers, and
 back: exactly when the second pass undoes the first.

 A header is its list of lines. No word spans a line, so replacing in a `#define` with its
 continuation lines is replacing in each of those lines.
 */
module Dmpsx {
  import opened Prelude

  datatype Row = Row(name: string, placeholder: nat, word: nat)

  const TABLE: seq<Row> := [
    Row("gte_rtps", 0x0000007F, 0x4A180001), Row("gte_rtpt", 0x000000BF, 0x4A280030),
    Row("gte_rt", 0x000000FF, 0x4A480012), Row("gte_rtv0", 0x0000013F, 0x4A486012),
    Row("gte_rtir", 0x000001FF, 0x4A49E012), Row("gte_rtv0tr", 0x0000027F, 0x4A480012),
    Row("gte_sqr0", 0x00000F3F, 0x4AA00428), Row("gte_op0", 0x0000127F, 0x4B70000C),
    Row("gte_gpf12", 0x000012BF, 0x4B98003D), Row("gte_gpf0", 0x000012FF, 0x4B90003D),
    Row("gte_gpl12", 0x0000133F, 0x4BA8003E)]

  const LOWER := "0123456789abcdef"
  const UPPER := "0123456789ABCDEF"

  /** The last `width` hexadecimal digits of `n`. */
  function Hex(n: nat, digits: string, width: nat): string
    requires |digits| == 16
  {
    if width == 0 then "" else Hex(n / 16, digits, width - 1) + [digits[n % 16]]
  }

  /** What a pass looks for, and what it writes, in the macro of a row. */
  function Old(r: Row, toWord: bool): string {
    if toWord then ".word 0x" + Hex(r.placeholder, LOWER, 8) else ".word 0x" + Hex(r.word, UPPER, 8)
  }

  function New(r: Row, toWord: bool): string {
    Old(r, !toWord)
  }

  /* ---- The words ---- */

  /** A word starts with its only dot and holds no backslash. */
  predicate Token(w: string) {
    |w| == 16 && w[0] == '.' && forall k :: 0 < k < 16 ==> w[k] != '.' && w[k] != '\\'
  }

  function Digit(c: char): nat {
    if '0' <= c <= '9' then (c - '0') as nat
    else if 'a' <= c <= 'f' then (c - 'a') as nat + 10
    else if 'A' <= c <= 'F' then (c - 'A') as nat + 10
    else 0
  }

  /** The number that a string of hexadecimal digits, in either case, stands for. */
  function Number(s: string): nat {
    if s == "" then 0 else 16 * Number(Init(s)) + Digit(Last(s))
  }

  function Power16(k: nat): nat {
    if k == 0 then 1 else 16 * Power16(k - 1)
  }

  lemma DigitsRead(d: nat)
    requires d < 16
    ensures Digit(LOWER[d]) == d && Digit(UPPER[d]) == d
  {
    if d < 10 {
      assert LOWER[d] == UPPER[d] == "0123456789"[d];
    } else {
      assert LOWER[d] == "abcdef"[d - 10] && UPPER[d] == "ABCDEF"[d - 10];
    }
  }

  /** What is written reads back as the number. */
  lemma {:induction false} HexReadsBack(n: nat, digits: string, width: nat)
    requires (digits == LOWER || digits == UPPER) && n < Power16(width)
    ensures Number(Hex(n, digits, width)) == n
  {
    if width > 0 {
      HexReadsBack(n / 16, digits, width - 1);
      DigitsRead(n % 16);
      var s := Hex(n / 16, digits, width - 1) + [digits[n % 16]];
      assert Init(s) == Hex(n / 16, digits, width - 1) && Last(s) == digits[n % 16];
    }
  }

  /** The two words of a row: the directive, and the number in eight digits. */
  lemma WordsRead(r: Row)
    requires r.placeholder < 0x1_0000_0000 && r.word < 0x1_0000_0000
    ensures |Old(r, true)| == |Old(r, false)| == 16
    ensures Old(r, true)[..8] == ".word 0x" && Number(Old(r, true)[8..]) == r.placeholder
    ensures Old(r, false)[..8] == ".word 0x" && Number(Old(r, false)[8..]) == r.word
    ensures New(r, true) == Old(r, false) && New(r, false) == Old(r, true)
  {
    hide Hex, Number;
    HexIsPlain(r.placeholder, LOWER, 8);
    HexIsPlain(r.word, UPPER, 8);
    assert Power16(8) == 0x1_0000_0000 by { PowerOf8(); }
    HexReadsBack(r.placeholder, LOWER, 8);
    HexReadsBack(r.word, UPPER, 8);
    assert Old(r, true)[8..] == Hex(r.placeholder, LOWER, 8);
    assert Old(r, false)[8..] == Hex(r.word, UPPER, 8);
  }

  lemma PowerOf8()
    ensures Power16(8) == 0x1_0000_0000
  {
    assert Power16(4) == 0x1_0000;
  }

  lemma {:induction false} HexIsPlain(n: nat, digits: string, width: nat)
    requires digits == LOWER || digits == UPPER
    ensures |Hex(n, digits, width)| == width
    ensures forall k :: 0 <= k < width ==> Hex(n, digits, width)[k] in digits
  {
    if width > 0 { HexIsPlain(n / 16, digits, width - 1); }
  }

  lemma {:induction false} FirstDigit(n: nat, digits: string, width: nat, d: nat)
    requires digits == LOWER || digits == UPPER
    requires width > 0 && d < 16 && Shifted(n, width - 1) == d
    ensures |Hex(n, digits, width)| == width && Hex(n, digits, width)[0] == digits[d]
  {
    HexIsPlain(n, digits, width);
    if width == 1 {
      assert Hex(n / 16, digits, 0) == "";
    } else {
      FirstDigit(n / 16, digits, width - 1, d);
    }
  }

  function Shifted(n: nat, places: nat): nat {
    if places == 0 then n else Shifted(n / 16, places - 1)
  }

  lemma OldIsToken(r: Row, toWord: bool)
    ensures Token(Old(r, toWord))
  {
    hide Hex;
    HexIsPlain(r.placeholder, LOWER, 8);
    HexIsPlain(r.word, UPPER, 8);
    var n, digits := if toWord then r.placeholder else r.word, if toWord then LOWER else UPPER;
    var w := Old(r, toWord);
    assert w == ".word 0x" + Hex(n, digits, 8);
    forall k | 8 <= k < 16
      ensures w[k] in digits
    {
      assert w[k] == Hex(n, digits, 8)[k - 8];
    }
  }

  /** The placeholders are small and the words are GTE commands, 0x4....... . */
  predicate Told(r: Row) {
    Shifted(r.placeholder, 7) == 0 && Shifted(r.word, 7) == 4
  }

  lemma OldIsNotNew(r: Row, toWord: bool)
    requires Told(r)
    ensures Old(r, toWord) != New(r, toWord)
  {
    hide Hex;
    FirstDigit(r.placeholder, LOWER, 8, 0);
    FirstDigit(r.word, UPPER, 8, 4);
    assert Old(r, true)[8] == '0' && Old(r, false)[8] == '4';
  }

  lemma ShiftedBy7(n: nat, d: nat)
    requires d * 0x10000000 <= n < (d + 1) * 0x10000000
    ensures Shifted(n, 7) == d
  {
    assert Shifted(n, 7) == n / 16 / 16 / 16 / 16 / 16 / 16 / 16 by {
      assert Shifted(n, 7) == Shifted(n / 16, 6) == Shifted(n / 16 / 16, 5);
      assert Shifted(n / 16 / 16, 5) == Shifted(n / 16 / 16 / 16, 4) == Shifted(n / 16 / 16 / 16 / 16, 3);
      var m := n / 16 / 16 / 16 / 16;
      assert Shifted(m, 3) == Shifted(m / 16, 2) == Shifted(m / 16 / 16, 1) == Shifted(m / 16 / 16 / 16, 0);
    }
  }

  lemma TableIsTold(r: Row)
    requires r in TABLE
    ensures Told(r)
  {
    ShiftedBy7(r.placeholder, 0);
    ShiftedBy7(r.word, 4);
  }

  /* ---- Replacing one word in one line ---- */

  /** The library's replace: leftmost occurrences, none overlapping. */
  function Replace(s: string, from: string, to: string): string
    requires |from| == 16
    decreases |s|
  {
    if |s| < 16 then s
    else if s[..16] == from then to + Replace(s[16..], from, to)
    else [s[0]] + Replace(s[1..], from, to)
  }

  ghost predicate Occurs(s: string, w: string, i: nat) {
    i + |w| <= |s| && s[i..i + |w|] == w
  }

  ghost predicate Contains(s: string, w: string) {
    exists i: nat :: Occurs(s, w, i)
  }

  lemma {:induction false} ReplaceKeepsLength(s: string, from: string, to: string)
    requires |from| == 16 && |to| == 16
    ensures |Replace(s, from, to)| == |s|
    decreases |s|
  {
    if |s| < 16 {
    } else if s[..16] == from {
      ReplaceKeepsLength(s[16..], from, to);
    } else {
      ReplaceKeepsLength(s[1..], from, to);
    }
  }

  ghost predicate Dotless(s: string) {
    forall k :: 0 <= k < |s| ==> s[k] != '.'
  }

  lemma WordIsADot(s: string, from: string, to: string)
    requires Token(from) && Token(to) && |s| >= 16 && s[..16] == from
    ensures s[0] == '.' && Replace(s, from, to) != "" && Replace(s, from, to)[0] == '.'
  {
    assert s[0] == s[..16][0];
  }

  /** Text without a dot is never touched, nor produced. */
  lemma {:induction false} DotlessIsKept(s: string, from: string, to: string, k: nat)
    requires Token(from) && Token(to) && k <= |s| && |Replace(s, from, to)| == |s|
    requires Dotless(s[..k]) || Dotless(Replace(s, from, to)[..k])
    ensures Replace(s, from, to)[..k] == s[..k]
    decreases |s|
  {
    var r := Replace(s, from, to);
    if |s| >= 16 && s[..16] == from { WordIsADot(s, from, to); }
    if k > 0 { var a, b := s[..k][0], r[..k][0]; }
    if k > 0 && |s| >= 16 {
      var t := s[1..];
      ReplaceKeepsLength(t, from, to);
      assert r == [s[0]] + Replace(t, from, to);
      assert s[..k] == [s[0]] + t[..k - 1] && r[..k] == [s[0]] + Replace(t, from, to)[..k - 1];
      Tail(s[0], t[..k - 1]);
      Tail(s[0], Replace(t, from, to)[..k - 1]);
      DotlessIsKept(t, from, to, k - 1);
    }
  }

  lemma Tail(c: char, s: string)
    ensures Dotless([c] + s) ==> Dotless(s)
  {
    assert forall k :: 0 <= k < |s| ==> ([c] + s)[k + 1] == s[k];
  }

  /** A line that does not begin with the old word begins with the new one after the pass
      only if it did before. */
  lemma SkippedHead(s: string, from: string, to: string)
    requires Token(from) && Token(to) && |s| >= 16 && s[..16] != from
    ensures |Replace(s, from, to)| == |s|
    ensures Replace(s, from, to)[..16] == to <==> s[..16] == to
  {
    hide Occurs;
    ReplaceKeepsLength(s, from, to);
    ReplaceKeepsLength(s[1..], from, to);
    var t, u := s[1..], Replace(s[1..], from, to);
    var r := Replace(s, from, to);
    assert r == [s[0]] + u && r[..16] == [s[0]] + u[..15] && s[..16] == [s[0]] + t[..15];
    assert to == [to[0]] + to[1..] && Dotless(to[1..]);
    if s[..16] == to {
      assert t[..15] == to[1..];
      DotlessIsKept(t, from, to, 15);
    }
    if r[..16] == to {
      assert u[..15] == to[1..];
      DotlessIsKept(t, from, to, 15);
    }
  }

  lemma OccursLater(s: string, w: string, d: nat, i: nat)
    requires d <= |s|
    ensures Occurs(s[d..], w, i) <==> Occurs(s, w, d + i)
  {
    if d + i + |w| <= |s| {
      var t := s[d..];
      assert |t| == |s| - d;
      var u, v := t[i..i + |w|], s[d + i..d + i + |w|];
      forall k | 0 <= k < |w|
        ensures u[k] == v[k]
      {
        assert t[i + k] == s[d + (i + k)];
      }
      assert u == v;
    }
  }

  lemma ContainsTail(s: string, w: string)
    requires Token(w) && |s| >= 16 && s[..16] != w
    ensures Contains(s, w) <==> Contains(s[1..], w)
  {
    if Contains(s, w) {
      var i: nat :| Occurs(s, w, i);
      assert i != 0;
      OccursLater(s, w, 1, i - 1);
    }
    if Contains(s[1..], w) {
      var i: nat :| Occurs(s[1..], w, i);
      OccursLater(s, w, 1, i);
    }
  }

  lemma ContainsAfterWord(s: string, from: string, w: string)
    requires Token(w) && Token(from) && w != from && |s| >= 16 && s[..16] == from
    ensures Contains(s, w) <==> Contains(s[16..], w)
  {
    if Contains(s, w) {
      var i: nat :| Occurs(s, w, i);
      assert s[i] == s[i..i + 16][0] == '.';
      assert s[..16][0] == '.' && forall k :: 0 < k < 16 ==> s[k] == s[..16][k] != '.';
      assert i != 0;
      OccursLater(s, w, 16, i - 16);
    }
    if Contains(s[16..], w) {
      var i: nat :| Occurs(s[16..], w, i);
      OccursLater(s, w, 16, i);
    }
  }

  /** In one line, replacing back undoes replacing exactly when the new word was not there
      to begin with. */
  lemma {:induction false} LineRoundTrip(s: string, from: string, to: string)
    requires Token(from) && Token(to) && from != to
    ensures Replace(Replace(s, from, to), to, from) == s <==> !Contains(s, to)
    decreases |s|
  {
    hide Contains, Replace;
    if |s| < 16 {
      ShortLine(s, from, to);
    } else if s[..16] == from {
      LineRoundTrip(s[16..], from, to);
      ContainsAfterWord(s, from, to);
      ReplacedBack(s, from, to);
    } else {
      SkippedHead(s, from, to);
      if s[..16] == to {
        NewWordWasThere(s, from, to);
      } else {
        LineRoundTrip(s[1..], from, to);
        ContainsTail(s, to);
        SkippedBack(s, from, to);
      }
    }
  }

  lemma ShortLine(s: string, from: string, to: string)
    requires Token(from) && Token(to) && |s| < 16
    ensures Replace(Replace(s, from, to), to, from) == s && !Contains(s, to)
  {
  }

  lemma ReplacedBack(s: string, from: string, to: string)
    requires Token(from) && Token(to) && |s| >= 16 && s[..16] == from
    ensures Replace(Replace(s, from, to), to, from) == from + Replace(Replace(s[16..], from, to), to, from)
    ensures s == from + s[16..]
  {
    var u := Replace(s[16..], from, to);
    assert (to + u)[..16] == to && (to + u)[16..] == u;
  }

  lemma SkippedBack(s: string, from: string, to: string)
    requires Token(from) && Token(to) && |s| >= 16 && s[..16] != from && s[..16] != to
    ensures Replace(Replace(s, from, to), to, from) == [s[0]] + Replace(Replace(s[1..], from, to), to, from)
    ensures s == [s[0]] + s[1..]
  {
    SkippedHead(s, from, to);
    var u := Replace(s[1..], from, to);
    assert Replace(s, from, to) == [s[0]] + u && ([s[0]] + u)[1..] == u;
  }

  lemma NewWordWasThere(s: string, from: string, to: string)
    requires Token(from) && Token(to) && from != to && |s| >= 16 && s[..16] == to
    ensures Replace(Replace(s, from, to), to, from) != s && Contains(s, to)
  {
    SkippedHead(s, from, to);
    var r := Replace(s, from, to);
    assert Replace(r, to, from)[..16] == from;
    assert Occurs(s, to, 0);
  }

  /* ---- What a pass leaves alone ---- */

  predicate Continues(line: string) {
    line != "" && Last(line) == '\\'
  }

  function BeforeDot(s: string): string
  {
    if s == "" || s[0] == '.' then "" else [s[0]] + BeforeDot(s[1..])
  }

  lemma {:induction false} ReplaceKeepsTheEnd(s: string, from: string, to: string)
    requires Token(from) && Token(to)
    ensures Continues(Replace(s, from, to)) <==> Continues(s)
    decreases |s|
  {
    ReplaceKeepsLength(s, from, to);
    if |s| < 16 {
    } else if s[..16] == from {
      ReplaceKeepsTheEnd(s[16..], from, to);
      ReplaceKeepsLength(s[16..], from, to);
      assert Last(s) == if |s| == 16 then from[15] else Last(s[16..]);
    } else {
      ReplaceKeepsTheEnd(s[1..], from, to);
      ReplaceKeepsLength(s[1..], from, to);
    }
  }

  lemma {:induction false} ReplaceKeepsTheHead(s: string, from: string, to: string)
    requires Token(from) && Token(to)
    ensures BeforeDot(Replace(s, from, to)) == BeforeDot(s)
    decreases |s|
  {
    if |s| < 16 {
    } else if s[..16] == from {
      assert s[0] == s[..16][0] == '.' && Replace(s, from, to)[0] == to[0];
    } else {
      var u := Replace(s[1..], from, to);
      assert Replace(s, from, to) == [s[0]] + u && ([s[0]] + u)[1..] == u;
      ReplaceKeepsTheHead(s[1..], from, to);
    }
  }

  /* ---- Whole headers ---- */

  predicate Blank(c: char) {
    c == ' ' || c == '\t'
  }

  predicate NameStart(c: char) {
    'a' <= c <= 'z' || 'A' <= c <= 'Z' || c == '_'
  }

  function SkipBlanks(s: string): string {
    if s != "" && Blank(s[0]) then SkipBlanks(s[1..]) else s
  }

  function NameOf(s: string): string {
    if s != "" && (NameStart(s[0]) || '0' <= s[0] <= '9') then [s[0]] + NameOf(s[1..]) else ""
  }

  /** The macro a line defines: blanks, `#`, blanks, `define`, blanks, a name. Reading it
      never passes a dot. */
  function Defines(line: string): Option<string> {
    var s := SkipBlanks(BeforeDot(line));
    if s == "" || s[0] != '#' then None else
    var t := SkipBlanks(s[1..]);
    if !("define" <= t) || |t| == 6 || !Blank(t[6]) then None else
    var u := SkipBlanks(t[6..]);
    if u == "" || !NameStart(u[0]) then None else Some(NameOf(u))
  }

  /** The row of a macro: its name, or its name with `_b`; a later row of a name wins. */
  function Lookup(rows: seq<Row>, name: string): Option<Row>
    ensures Lookup(rows, name).Some? ==> Lookup(rows, name).value in rows
  {
    if rows == [] then None
    else if name == Last(rows).name || name == Last(rows).name + "_b" then Some(Last(rows))
    else Lookup(Init(rows), name)
  }

  function RowOf(line: string): Option<Row> {
    match Defines(line)
    case None => None
    case Some(name) => Lookup(TABLE, name)
  }

  /** The row whose `#define`, continuation lines included, holds line `i`. */
  function Owner(lines: seq<string>, i: nat): Option<Row>
    requires i < |lines|
  {
    if i == 0 || !Continues(lines[i - 1]) then RowOf(lines[i]) else Owner(lines, i - 1)
  }

  function SwapLine(line: string, row: Option<Row>, toWord: bool): string
  {
    match row
    case None => line
    case Some(r) => OldIsToken(r, toWord); Replace(line, Old(r, toWord), New(r, toWord))
  }

  function Swapped(lines: seq<string>, toWord: bool): (out: seq<string>)
    ensures |out| == |lines|
  {
    seq(|lines|, i requires 0 <= i < |lines| => SwapLine(lines[i], Owner(lines, i), toWord))
  }

  lemma OneMoreLine(lines: seq<string>, toWord: bool, i: nat)
    requires i < |lines|
    ensures Swapped(lines, toWord)[..i + 1] ==
            Swapped(lines, toWord)[..i] + [SwapLine(lines[i], Owner(lines, i), toWord)]
  {
    hide SwapLine, Owner;
  }

  lemma OwnerIs(lines: seq<string>, i: nat)
    requires i < |lines|
    ensures i == 0 || !Continues(lines[i - 1]) ==> Owner(lines, i) == RowOf(lines[i])
    ensures i + 1 < |lines| && Continues(lines[i]) ==> Owner(lines, i + 1) == Owner(lines, i)
  {
    hide RowOf, Continues;
  }

  /** The pass over a header: one `#define`, with its continuation lines, at a time. */
  method SwapWords(lines: seq<string>, toWord: bool) returns (out: seq<string>)
    ensures out == Swapped(lines, toWord)
  {
    hide Swapped, Owner, RowOf, SwapLine, Continues;
    out := [];
    var i := 0;
    while i < |lines|
      invariant 0 <= i <= |lines| && out == Swapped(lines, toWord)[..i]
      invariant 0 < i < |lines| ==> !Continues(lines[i - 1])
    {
      var first := i;
      i, out := SwapDefine(lines, first, toWord, out);
    }
    assert Swapped(lines, toWord)[..i] == Swapped(lines, toWord);
  }

  /** One `#define` and what continues it. */
  method SwapDefine(lines: seq<string>, first: nat, toWord: bool, before: seq<string>)
    returns (i: nat, out: seq<string>)
    requires first < |lines| && before == Swapped(lines, toWord)[..first]
    requires first == 0 || !Continues(lines[first - 1])
    ensures first < i <= |lines| && out == Swapped(lines, toWord)[..i] && (i < |lines| ==> !Continues(lines[i - 1]))
  {
    hide Swapped, Owner, RowOf, SwapLine, Continues;
    var row := RowOf(lines[first]);
    i := first;
    OwnerIs(lines, i);
    OneMoreLine(lines, toWord, i);
    out := before + [SwapLine(lines[i], row, toWord)];
    while Continues(lines[i]) && i + 1 < |lines|
      invariant first <= i < |lines| && Owner(lines, i) == row && out == Swapped(lines, toWord)[..i + 1]
    {
      OwnerIs(lines, i);
      i := i + 1;
      OneMoreLine(lines, toWord, i);
      out := out + [SwapLine(lines[i], row, toWord)];
    }
    i := i + 1;
  }

  lemma SwapLineKeeps(line: string, row: Option<Row>, toWord: bool)
    ensures Continues(SwapLine(line, row, toWord)) <==> Continues(line)
    ensures BeforeDot(SwapLine(line, row, toWord)) == BeforeDot(line)
  {
    hide Replace, Token, Continues, BeforeDot, Old;
    if row.Some? {
      OldIsToken(row.value, toWord);
      OldIsToken(row.value, !toWord);
      ReplaceKeepsTheEnd(line, Old(row.value, toWord), New(row.value, toWord));
      ReplaceKeepsTheHead(line, Old(row.value, toWord), New(row.value, toWord));
    }
  }

  lemma OwnerIsTold(lines: seq<string>, i: nat)
    requires i < |lines| && Owner(lines, i).Some?
    ensures Owner(lines, i).value in TABLE
  {
  }

  lemma SameHeadSameRow(a: string, b: string)
    requires BeforeDot(a) == BeforeDot(b)
    ensures RowOf(a) == RowOf(b)
  {
    hide BeforeDot, Lookup;
  }

  /** A pass moves no macro boundary and renames no macro. */
  lemma {:induction false} OwnersAreKept(lines: seq<string>, toWord: bool, i: nat)
    requires i < |lines|
    ensures Owner(Swapped(lines, toWord), i) == Owner(lines, i)
  {
    hide SwapLine, Continues, BeforeDot, Defines, Lookup;
    hide RowOf;
    var out := Swapped(lines, toWord);
    SwapLineKeeps(lines[i], Owner(lines, i), toWord);
    SameHeadSameRow(out[i], lines[i]);
    if i > 0 {
      SwapLineKeeps(lines[i - 1], Owner(lines, i - 1), toWord);
      OwnersAreKept(lines, toWord, i - 1);
    }
  }

  /** No line of a carrier macro already holds what the pass is about to write there. */
  ghost predicate NothingToConfuse(lines: seq<string>, toWord: bool) {
    forall i :: 0 <= i < |lines| ==> Free(lines[i], Owner(lines, i), toWord)
  }

  ghost predicate Free(line: string, row: Option<Row>, toWord: bool) {
    row.Some? ==> !Contains(line, New(row.value, toWord))
  }

  lemma LineComesBack(line: string, row: Option<Row>, toWord: bool)
    requires row.Some? ==> row.value in TABLE
    ensures SwapLine(SwapLine(line, row, toWord), row, !toWord) == line <==> Free(line, row, toWord)
  {
    hide Replace, Token, Contains, Old;
    if row.Some? {
      TableIsTold(row.value);
      OldIsNotNew(row.value, toWord);
      OldIsToken(row.value, toWord);
      OldIsToken(row.value, !toWord);
      LineRoundTrip(line, Old(row.value, toWord), New(row.value, toWord));
    }
  }

  lemma SwapTwiceAt(lines: seq<string>, toWord: bool, i: nat)
    requires i < |lines|
    ensures Swapped(Swapped(lines, toWord), !toWord)[i] == lines[i] <==> Free(lines[i], Owner(lines, i), toWord)
  {
    hide SwapLine, Owner, Free;
    OwnersAreKept(lines, toWord, i);
    if Owner(lines, i).Some? { OwnerIsTold(lines, i); }
    LineComesBack(lines[i], Owner(lines, i), toWord);
  }

  /** The two passes undo each other, in either order, exactly when the header holds, in its
      carrier macros, none of the words the first pass writes. With `toWord` false this is the
      test the vendored headers get: no placeholder may be left unsubstituted. */
  lemma RoundTrip(lines: seq<string>, toWord: bool)
    ensures Swapped(Swapped(lines, toWord), !toWord) == lines <==> NothingToConfuse(lines, toWord)
  {
    hide Swapped, Owner, Free;
    var back := Swapped(Swapped(lines, toWord), !toWord);
    forall i | 0 <= i < |lines|
      ensures back[i] == lines[i] <==> Free(lines[i], Owner(lines, i), toWord)
    {
      SwapTwiceAt(lines, toWord, i);
    }
    if NothingToConfuse(lines, toWord) { assert back == lines; }
  }

  /* ---- What a pass does to a line ---- */

  /** A row stands for its macro and for the `_b` form of it. */
  ghost predicate Carries(r: Row, name: string) {
    r.name == name || r.name + "_b" == name
  }

  lemma LookupStep(rows: seq<Row>, name: string)
    requires rows != []
    ensures Lookup(rows, name) ==
      if Carries(rows[|rows| - 1], name) then Some(rows[|rows| - 1]) else Lookup(rows[..|rows| - 1], name)
  {
  }

  /** Of several rows that stand for a macro the last one counts; without one there is none. */
  lemma {:induction false} LookupIsLast(rows: seq<Row>, name: string, k: nat)
    requires k < |rows| && Carries(rows[k], name) && forall j :: k < j < |rows| ==> !Carries(rows[j], name)
    ensures Lookup(rows, name) == Some(rows[k])
  {
    hide Lookup, Carries;
    LookupStep(rows, name);
    if k < |rows| - 1 { LookupIsLast(rows[..|rows| - 1], name, k); }
  }

  lemma {:induction false} LookupIsNone(rows: seq<Row>, name: string)
    requires forall j :: 0 <= j < |rows| ==> !Carries(rows[j], name)
    ensures Lookup(rows, name) == None
  {
    hide Carries;
    if rows != [] {
      LookupStep(rows, name);
      LookupIsNone(rows[..|rows| - 1], name);
    }
  }

  /** All lines but the last of these end in a backslash. */
  ghost predicate Runs(lines: seq<string>, first: nat, i: nat) {
    first <= i < |lines| && forall k :: first <= k < i ==> |lines[k]| > 0 && lines[k][|lines[k]| - 1] == '\\'
  }

  lemma {:induction false} FirstLineOwns(lines: seq<string>, first: nat, i: nat)
    requires Runs(lines, first, i) && (first == 0 || !Continues(lines[first - 1]))
    ensures Owner(lines, i) == RowOf(lines[first])
    decreases i
  {
    hide RowOf;
    OwnerIs(lines, first);
    if first < i {
      FirstLineOwns(lines, first, i - 1);
      OwnerIs(lines, i - 1);
    }
  }

  /** Every occurrence of the old word is the new one afterwards, and what no occurrence covers is
      as it was. */
  lemma {:induction false} ReplaceIs(s: string, from: string, to: string, i: nat)
    requires Token(from) && Token(to) && |Replace(s, from, to)| == |s|
    ensures Occurs(s, from, i) ==> Occurs(Replace(s, from, to), to, i)
    ensures i < |s| && (forall k: nat :: Occurs(s, from, k) ==> i < k || k + 16 <= i) ==>
      Replace(s, from, to)[i] == s[i]
    decreases |s|
  {
    hide Occurs, Token;
    TokenLength(from);
    TokenLength(to);
    if |s| < 16 {
      ShortHolds(s, from, i);
    } else if s[..16] == from {
      ReplaceKeepsLength(s[16..], from, to);
      ReplacedHead(s, from, to, i);
      if i >= 16 {
        ReplaceIs(s[16..], from, to, i - 16);
        OccursLater(s, from, 16, i - 16);
        OccursLater(Replace(s, from, to), to, 16, i - 16);
        forall k: nat
          ensures Occurs(s[16..], from, k) <==> Occurs(s, from, 16 + k)
        {
          OccursLater(s, from, 16, k);
        }
      }
    } else {
      ReplaceKeepsLength(s[1..], from, to);
      SkippedFirst(s, from, to);
      if i >= 1 {
        ReplaceIs(s[1..], from, to, i - 1);
        OccursLater(s, from, 1, i - 1);
        OccursLater(Replace(s, from, to), to, 1, i - 1);
        forall k: nat
          ensures Occurs(s[1..], from, k) <==> Occurs(s, from, 1 + k)
        {
          OccursLater(s, from, 1, k);
        }
      }
    }
  }

  lemma TokenLength(w: string)
    requires Token(w)
    ensures |w| == 16
  {
  }

  lemma ShortHolds(s: string, w: string, i: nat)
    requires Token(w) && |s| < 16
    ensures !Occurs(s, w, i) && forall to :: Replace(s, w, to) == s
  {
  }

  lemma ReplacedHead(s: string, from: string, to: string, i: nat)
    requires Token(from) && Token(to) && |s| >= 16 && s[..16] == from
    ensures Replace(s, from, to)[16..] == Replace(s[16..], from, to)
    ensures Occurs(s, from, 0) && Occurs(Replace(s, from, to), to, 0)
    ensures 0 < i < 16 ==> !Occurs(s, from, i)
  {
    var u := Replace(s[16..], from, to);
    assert Replace(s, from, to) == to + u && (to + u)[..16] == to && (to + u)[16..] == u;
    if 0 < i < 16 && i + 16 <= |s| {
      assert s[i] == s[i..i + 16][0] && s[i] == s[..16][i] != '.';
    }
  }

  lemma SkippedFirst(s: string, from: string, to: string)
    requires Token(from) && |s| >= 16 && s[..16] != from
    ensures Replace(s, from, to) == [s[0]] + Replace(s[1..], from, to)
    ensures Replace(s, from, to)[1..] == Replace(s[1..], from, to) && !Occurs(s, from, 0)
  {
  }

  /* ---- The macro of a line ---- */

  predicate InName(c: char) {
    NameStart(c) || '0' <= c <= '9'
  }

  lemma BeforeDotStep(s: string)
    ensures BeforeDot(s) == if s == "" || s[0] == '.' then "" else [s[0]] + BeforeDot(s[1..])
  {
  }

  lemma {:induction false} HeadBeforeDot(s: string, w: string)
    requires Dotless(s)
    ensures BeforeDot(s + w) == s + BeforeDot(w)
  {
    hide BeforeDot, Dotless;
    if s == "" {
      assert s + w == w && s + BeforeDot(w) == BeforeDot(w);
    } else {
      assert s == [s[0]] + s[1..] && s[0] != '.' by { DotlessHead(s); }
      Tail(s[0], s[1..]);
      HeadBeforeDot(s[1..], w);
      assert s + w == [s[0]] + (s[1..] + w);
      BeforeDotStep([s[0]] + (s[1..] + w));
      Tailed(s[0], s[1..] + w);
      assert [s[0]] + (s[1..] + BeforeDot(w)) == s + BeforeDot(w);
    }
  }

  lemma DotlessHead(s: string)
    requires Dotless(s) && s != ""
    ensures s[0] != '.'
  {
  }

  lemma Tailed(c: char, s: string)
    ensures ([c] + s)[0] == c && ([c] + s)[1..] == s
  {
  }

  lemma {:induction false} NameEnds(s: string, w: string)
    requires (forall k :: 0 <= k < |s| ==> InName(s[k])) && (w == "" || !InName(w[0]))
    ensures NameOf(s + w) == s
  {
    if s == "" {
      assert s + w == w;
    } else {
      assert (s + w)[1..] == s[1..] + w && (s + w)[0] == s[0];
      NameEnds(s[1..], w);
      assert s == [s[0]] + s[1..];
    }
  }

  /** The head of a plain `#define`. */
  function DefineHead(name: string): string {
    "#" + ("define" + (" " + name))
  }

  predicate IsName(name: string) {
    && name != "" && !('0' <= name[0] <= '9')
    && forall k :: 0 <= k < |name| ==>
         var c := name[k]; 'a' <= c <= 'z' || 'A' <= c <= 'Z' || c == '_' || '0' <= c <= '9'
  }

  lemma HeadIsDotless(name: string)
    requires IsName(name)
    ensures Dotless(DefineHead(name))
  {
    var s := DefineHead(name);
    assert forall k :: 0 <= k < |"define"| ==> "define"[k] != '.';
    forall k | 0 <= k < |s|
      ensures s[k] != '.'
    {
      if 8 <= k < 8 + |name| { assert s[k] == name[k - 8]; }
    }
  }

  /** A `#define` of the name, whatever follows the name. */
  lemma ItDefines(name: string, rest: string)
    requires IsName(name) && (rest == "" || !InName(rest[0]))
    ensures Defines(DefineHead(name) + rest) == Some(name)
  {
    hide NameOf, BeforeDot, Defines, NameStart;
    HeadIsDotless(name);
    HeadBeforeDot(DefineHead(name), rest);
    var end := BeforeDot(rest);
    BeforeDotStarts(rest);
    ItsCharacters(name);
    NameEnds(name, end);
    assert DefineHead(name) + end == "#" + ("define" + (" " + (name + end)));
    assert (name + end)[0] == name[0];
    ReadsDefine(DefineHead(name) + rest, name + end);
  }

  lemma ItsCharacters(name: string)
    requires IsName(name)
    ensures NameStart(name[0]) && forall k :: 0 <= k < |name| ==> InName(name[k])
  {
  }

  lemma ReadsDefine(line: string, v: string)
    requires v != "" && NameStart(v[0]) && BeforeDot(line) == "#" + ("define" + (" " + v))
    ensures Defines(line) == Some(NameOf(v))
  {
    hide NameOf, BeforeDot, NameStart, SkipBlanks;
    var t := "define" + (" " + v);
    NotBlank(v);
    Tailed('#', t);
    NoBlanks("#" + t);
    assert t[0] == "define"[0];
    NoBlanks(t);
    assert "define" <= t && t[6..] == " " + v && t[6] == ' ';
    OneBlank(v);
    NoBlanks(v);
  }

  lemma NotBlank(v: string)
    requires v != "" && NameStart(v[0])
    ensures !Blank(v[0])
  {
  }

  lemma NoBlanks(s: string)
    requires s == "" || !Blank(s[0])
    ensures SkipBlanks(s) == s
  {
  }

  lemma OneBlank(s: string)
    ensures SkipBlanks(" " + s) == SkipBlanks(s)
  {
    assert (" " + s)[1..] == s;
  }

  lemma BeforeDotStarts(s: string)
    ensures BeforeDot(s) == "" || (s != "" && BeforeDot(s)[0] == s[0])
  {
  }

  /** In the plain: a line is swapped by a row when that is the last one carrying the macro of the
      `#define` at whose line the backslashes above it begin. */
  lemma CarriedLineIsSwapped(lines: seq<string>, first: nat, i: nat, name: string, rest: string, k: nat, toWord: bool)
    requires Runs(lines, first, i) && lines[first] == DefineHead(name) + rest
    requires first == 0 || lines[first - 1] == "" || lines[first - 1][|lines[first - 1]| - 1] != '\\'
    requires IsName(name) && (rest == "" || !InName(rest[0]))
    requires k < |TABLE| && Carries(TABLE[k], name) && forall j :: k < j < |TABLE| ==> !Carries(TABLE[j], name)
    ensures |Old(TABLE[k], toWord)| == 16
    ensures Swapped(lines, toWord)[i] == Replace(lines[i], Old(TABLE[k], toWord), New(TABLE[k], toWord))
  {
    hide Replace, Defines, Lookup, Carries, DefineHead, Old, Owner, Token;
    FirstLineOwns(lines, first, i);
    ItDefines(name, rest);
    LookupIsLast(TABLE, name, k);
    OldIsToken(TABLE[k], toWord);
    TokenLength(Old(TABLE[k], toWord));
  }

  /** And is left alone when no row carries it, or when it is no directive. */
  lemma OtherLineIsKept(lines: seq<string>, first: nat, i: nat, name: string, rest: string, toWord: bool)
    requires Runs(lines, first, i) && lines[first] == DefineHead(name) + rest
    requires first == 0 || lines[first - 1] == "" || lines[first - 1][|lines[first - 1]| - 1] != '\\'
    requires IsName(name) && (rest == "" || !InName(rest[0]))
    requires forall j :: 0 <= j < |TABLE| ==> !Carries(TABLE[j], name)
    ensures Swapped(lines, toWord)[i] == lines[i]
  {
    hide Replace, Defines, Lookup, Carries, DefineHead, Old, Owner, Token;
    FirstLineOwns(lines, first, i);
    ItDefines(name, rest);
    LookupIsNone(TABLE, name);
  }

  lemma PlainLineIsKept(lines: seq<string>, first: nat, i: nat, toWord: bool)
    requires Runs(lines, first, i) && (lines[first] == "" || lines[first][0] !in "# \t")
    requires first == 0 || lines[first - 1] == "" || lines[first - 1][|lines[first - 1]| - 1] != '\\'
    ensures Swapped(lines, toWord)[i] == lines[i]
  {
    hide Replace, Old, Owner, BeforeDot;
    FirstLineOwns(lines, first, i);
    BeforeDotStarts(lines[first]);
    var s := BeforeDot(lines[first]);
    assert SkipBlanks(s) == s;
  }

  /* ---- A header the passes do not restore ---- */

  /** The last row of the table. */
  const GPL12 := Row("gte_gpl12", 0x0000133F, 0x4BA8003E)

  /** `#define gte_gpl12` with a word the pass is to write already in it: its command word, or
      going back its placeholder. */
  function AlreadyWritten(toWord: bool): seq<string> {
    [DefineHead(GPL12.name) + (" " + New(GPL12, toWord))]
  }

  /** The documented inverse fails, in both orders: the first pass changes nothing in this
      header, and the second one does. */
  lemma AlreadyWrittenIsNotRestored(toWord: bool)
    ensures Swapped(Swapped(AlreadyWritten(toWord), toWord), !toWord) != AlreadyWritten(toWord)
  {
    hide Swapped, Defines, Old, DefineHead;
    var lines, line := AlreadyWritten(toWord), AlreadyWritten(toWord)[0];
    var w := New(GPL12, toWord);
    OldIsToken(GPL12, !toWord);
    assert IsName(GPL12.name);
    ItDefines(GPL12.name, " " + w);
    assert Last(TABLE) == GPL12;
    assert Owner(lines, 0) == Some(GPL12);
    var at := |DefineHead(GPL12.name)| + 1;
    assert line[at..at + |w|] == w;
    assert Occurs(line, w, at);
    RoundTrip(lines, toWord);
    assert !Free(line, Some(GPL12), toWord);
  }
}

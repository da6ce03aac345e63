/**
 Rewriting a named-symbol HI16/LO16 pair to the halves the linker writes
 (System V ABI, MIPS RISC Processor Supplement, chapter 4, Relocation).
 */
module HiLo {
  import opened Prelude

  const WORD: int := 0x1_0000_0000
  const HALF: int := 0x1_0000

  /** `((x & 0xFFFF) ^ 0x8000) - 0x8000`: flipping the sign bit and taking it away. */
  function Signed16(x: int): int {
    var u := x % HALF;
    (if u >= 0x8000 then u - 0x8000 else u + 0x8000) - 0x8000
  }

  /** What the pair links to: symbol, high half and signed low half, modulo 2^32. */
  function Linked(addr: int, hi: int, lo: int): (v: int)
    ensures 0 <= v < WORD
  {
    (addr + (hi % HALF) * HALF + Signed16(lo)) % WORD
  }

  function HiOut(value: int): int { (value + 0x8000) / HALF % HALF }

  function LoOut(value: int): int { value % HALF }

  /** The low half is the unique signed 16-bit number congruent to the field. */
  lemma Signed16Is(x: int)
    ensures -0x8000 <= Signed16(x) < 0x8000 && Signed16(x) % HALF == x % HALF
  {
  }

  /** What a lui/addiu or lui/load pair with these halves computes. */
  function Recomposed(hi: int, lo: int): int { (hi * HALF + Signed16(lo)) % WORD }

  lemma HalvesRecompose(value: int)
    requires 0 <= value < WORD
    ensures Recomposed(HiOut(value), LoOut(value)) == value
  {
    var q, r := value / HALF, value % HALF;
    assert value == q * HALF + r && 0 <= q < HALF;
    if r < 0x8000 {
      assert (value + 0x8000) / HALF == q;
    } else {
      assert value + 0x8000 == (q + 1) * HALF + (r - 0x8000);
      assert (value + 0x8000) / HALF == q + 1;
      if q + 1 == HALF { assert HiOut(value) == 0; }
    }
  }

  /** For every address and every pair of fields the emitted halves recompose to the
      linked value. */
  lemma EmittedHalvesLink(addr: int, hi: int, lo: int)
    ensures var v := Linked(addr, hi, lo);
            Recomposed(HiOut(v), LoOut(v)) == v
  {
    HalvesRecompose(Linked(addr, hi, lo));
  }

  /** Two pairs get the same tokens exactly when they link to the same word. */
  lemma SameTokensIffSameWord(a: int, ahi: int, alo: int, b: int, bhi: int, blo: int)
    ensures var (v, w) := (Linked(a, ahi, alo), Linked(b, bhi, blo));
            HiOut(v) == HiOut(w) && LoOut(v) == LoOut(w) <==> v == w
  {
    EmittedHalvesLink(a, ahi, alo);
    EmittedHalvesLink(b, bhi, blo);
  }

  /** Spelling the offset in the symbol or in the addend makes no difference. */
  lemma OffsetMayMove(addr: int, k: int, hi: int, lo: int)
    requires -0x8000 <= Signed16(lo) + k < 0x8000
    ensures Linked(addr + k, hi, lo) == Linked(addr, hi, lo + k)
  {
    var u := lo % HALF;
    assert lo == lo / HALF * HALF + u;
    SignedShift(lo, k);
  }

  lemma SignedShift(lo: int, k: int)
    requires -0x8000 <= Signed16(lo) + k < 0x8000
    ensures Signed16(lo + k) == Signed16(lo) + k
  {
    var s, t := Signed16(lo), Signed16(lo + k);
    Signed16Is(lo);
    Signed16Is(lo + k);
    var m := (t - s - k) / HALF;
    assert (s - lo) % HALF == 0 && (t - (lo + k)) % HALF == 0;
    assert (t - s - k) % HALF == 0;
    assert t - s - k == m * HALF;
    assert -HALF < t - s - k < HALF;
    assert m == 0;
  }

  /** The linked word in plain numbers: the high field counts 65536 each, the low field as the
      signed number of 16 bits that it is. */
  lemma LinkedMeans(addr: int, hi: int, lo: int)
    requires 0 <= hi < 65536 && -32768 <= lo < 65536
    ensures Linked(addr, hi, lo) == (addr + hi * 65536 + (if lo < 32768 then lo else lo - 65536)) % 4294967296
  {
    var s := if lo < 32768 then lo else lo - 65536;
    Signed16Is(lo);
    assert Signed16(lo) == s;
  }

  /** Both emitted halves are fields of 16 bits, and mean the linked word. */
  lemma EmittedHalvesMean(addr: int, hi: int, lo: int)
    ensures var v := Linked(addr, hi, lo);
      var (high, low) := (HiOut(v), LoOut(v));
      && 0 <= high < 65536 && 0 <= low < 65536
      && v == (high * 65536 + (if low < 32768 then low else low - 65536)) % 4294967296
  {
    EmittedHalvesLink(addr, hi, lo);
  }

  // ----- The rewrite in place -----

  /** The immediate field at the head of an instruction's last operand. */
  datatype Imm = Raw(n: int) | Hi(half: int) | Lo(half: int) | Other

  datatype Insn = Insn(mnemonic: string, imm: Imm)

  /** The substitution only ever replaces a numeral. */
  function Retoken(insn: Insn, imm: Imm): Insn {
    if insn.imm.Raw? then insn.(imm := imm) else insn
  }

  /** `hi` is the immediate of the lui as it was when its relocation was met; `addr` the
      symbol's address, if known. Nothing changes unless all three numbers are known. */
  method ResolveNamedPair(insns: array<Insn>, hiAt: nat, hi: Option<int>, loAt: nat, addr: Option<int>)
    requires hiAt < insns.Length && loAt < insns.Length
    modifies insns
    ensures forall k :: 0 <= k < insns.Length && k != hiAt && k != loAt ==> insns[k] == old(insns[k])
    ensures addr.None? || hi.None? || !old(insns[loAt]).imm.Raw? ==> insns[..] == old(insns[..])
    ensures addr.Some? && hi.Some? && old(insns[loAt]).imm.Raw? && hiAt != loAt ==>
      var v := Linked(addr.value, hi.value, old(insns[loAt]).imm.n);
      && insns[hiAt].mnemonic == old(insns[hiAt]).mnemonic
      && insns[hiAt].imm == (if old(insns[hiAt]).imm.Raw? then Hi(HiOut(v)) else old(insns[hiAt]).imm)
      && insns[loAt] == old(insns[loAt]).(imm := Lo(LoOut(v)))
      && Recomposed(HiOut(v), LoOut(v)) == v
  {
    if addr.None? { return; }
    if hi.None? || !insns[loAt].imm.Raw? { return; }
    var lo := insns[loAt].imm.n;
    var value := (addr.value + (hi.value % HALF) * HALF + Signed16(lo)) % WORD;
    var hiOut := (value + 0x8000) / HALF % HALF;
    var loOut := value % HALF;
    EmittedHalvesLink(addr.value, hi.value, lo);
    insns[hiAt] := Retoken(insns[hiAt], Hi(hiOut));
    insns[loAt] := Retoken(insns[loAt], Lo(loOut));
  }
}

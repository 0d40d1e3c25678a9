/** Memory layout and page-table words (include/mmu.h).

    A 32-bit page-table word is kept as its 20-bit frame number and its low 12
    bits, and those 12 bits as their fields, so that an `|` or `& ~` of the
    source is an update of the named field. */
module Mmu {
  const ENTRIES := 1024      // words per page table or page directory
  const NASID := 256
  const UTOP_PDX := 509      // PDX(UTOP), UTOP == 0x7f400000
  const UVPT_PDX := 511      // PDX(UVPT), UVPT == 0x7fc00000
  const UTOP_VPN := 509 * 1024
  const UTEMP_VPN := 0x3fe
  const UCOW_VPN := 0x3ff
  const USTACKTOP_VPN := UTOP_VPN - 2
  const MAX_REF := 0xffff    // pp_ref is a u_short

  /** Bit 0 COW, bit 1 LIBRARY, bits 2..5 other software bits, bit 6 G, bit 7 V,
      bit 8 D, bits 9..11 cache attribute. */
  datatype Perm = Perm(cow: bool, lib: bool, soft: nat, g: bool, v: bool, d: bool, c: nat)

  datatype Word = Word(ppn: nat, perm: Perm)

  const NO_PERM := Perm(false, false, 0, false, false, false, 0)
  const PERM_D := NO_PERM.(d := true)
  const ZERO := Word(0, NO_PERM)

  /** `perm | PTE_C_CACHEABLE | PTE_V`: PTE_C_CACHEABLE sets the two low attribute bits. */
  function WithCV(p: Perm): Perm {
    p.(v := true, c := if p.c >= 4 then 7 else 3)
  }

  /** The permissions p are those asked for, with PTE_V and the two low bits of the cache
      attribute: every other bit is as asked. */
  predicate Grants(p: Perm, asked: Perm) {
    && p.v && (asked.c < 4 ==> p.c == 3) && (asked.c >= 4 ==> p.c == 7)
    && p.cow == asked.cow && p.lib == asked.lib && p.soft == asked.soft && p.g == asked.g && p.d == asked.d
  }

  lemma GrantsAsked(p: Perm)
    ensures Grants(WithCV(p), p)
  {
  }

  /** The TLB word w is what the hardware has of the page-table word pte: its frame and hardware
      fields, and no software bit. */
  predicate Caches(w: Word, pte: Word) {
    && w.ppn == pte.ppn && w.perm.v == pte.perm.v && w.perm.d == pte.perm.d && w.perm.g == pte.perm.g
    && w.perm.c == pte.perm.c && !w.perm.cow && !w.perm.lib && w.perm.soft == 0
  }

  /** `pte >> 6`: what the TLB keeps of a word is its frame number and hardware bits. */
  function Hard(w: Word): Word {
    w.(perm := w.perm.(cow := false, lib := false, soft := 0))
  }

  /** A user page: address-space number and virtual page number below UTOP. */
  datatype Site = Site(a: nat, vpn: nat)
}

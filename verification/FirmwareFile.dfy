/**
 * The firmware file: how the size probe reads its header and how the loader
 * cuts it into an ICCM and a DCCM image.
 */
module FirmwareFile {
  import opened Bytes

  datatype Chip = W1 | W1U | W2 | W2L
  datatype Interface = Sdio | Usb | Pcie

  const W1U_ROM_START_CODE: u32 := 0x0cc0006f
  const MIN_ALLOC_SIZE := 1
  const MAX_ALLOC_SIZE := 1024 * 1024

  datatype Sizes = Sizes(iccm: u32, dccm: u32, addIccm: u32)

  /** Only the W1U behind SDIO or PCIe may carry additional ICCM in its file. */
  predicate MayCarryExtraIccm(chip: Chip, intf: Interface) {
    chip == W1U && intf != Usb
  }

  predicate IsValidSize(size: int) {
    MIN_ALLOC_SIZE <= size <= MAX_ALLOC_SIZE
  }

  function WordAt(file: seq<byte>, at: nat): u32
    requires at + 4 <= |file|
  {
    FromLe32(file[at..at + 4])
  }

  /** How much of the file the size probes read. */
  function ProbedLength(chip: Chip, intf: Interface): nat {
    if MayCarryExtraIccm(chip, intf) then 12 else 8
  }

  /** What the two size probes leave in `iccm_size`, `dccm_size` and `add_iccm`. */
  function Probe(chip: Chip, intf: Interface, file: seq<byte>): Sizes
    requires |file| >= ProbedLength(chip, intf)
  {
    var first, second := WordAt(file, 0), WordAt(file, 4);
    if !MayCarryExtraIccm(chip, intf) || WordAt(file, 8) == W1U_ROM_START_CODE then Sizes(first, second, 0)
    else Sizes(first, WordAt(file, 8), second)
  }

  function HeaderLength(s: Sizes): nat {
    if s.addIccm != 0 then 12 else 8
  }

  /** The file is readable in full and both sizes pass the allocator's check. */
  predicate Loadable(chip: Chip, intf: Interface, file: seq<byte>) {
    |file| >= ProbedLength(chip, intf) &&
    var s := Probe(chip, intf, file);
    IsValidSize(s.iccm) && IsValidSize(s.dccm) && HeaderLength(s) + s.iccm + s.addIccm + s.dccm <= |file|
  }

  /**
   * The files that load: ICCM and DCCM between one byte and one mebibyte, and no section
   * beyond the end. The words of the header are these two sizes; on a W1U off USB, where
   * the third word is not the first of the ROM, they are ICCM, extra ICCM and DCCM, and
   * without any extra the sections begin eight bytes in all the same.
   */
  lemma LoadableExactly(chip: Chip, intf: Interface, file: seq<byte>)
    ensures Loadable(chip, intf, file) <==>
            if chip != W1U || intf == Usb then
              && |file| >= 8 && 1 <= WordAt(file, 0) <= 0x10_0000 && 1 <= WordAt(file, 4) <= 0x10_0000
              && |file| >= 8 + WordAt(file, 0) + WordAt(file, 4)
            else
              && |file| >= 12
              && if WordAt(file, 8) == 0x0cc0_006f then
                   && 1 <= WordAt(file, 0) <= 0x10_0000 && 1 <= WordAt(file, 4) <= 0x10_0000
                   && |file| >= 8 + WordAt(file, 0) + WordAt(file, 4)
                 else
                   && 1 <= WordAt(file, 0) <= 0x10_0000 && 1 <= WordAt(file, 8) <= 0x10_0000
                   && |file| >= (if WordAt(file, 4) == 0 then 8 else 12)
                                + WordAt(file, 0) + WordAt(file, 4) + WordAt(file, 8)
  {
  }

  function IccmImage(chip: Chip, intf: Interface, file: seq<byte>): (r: seq<byte>)
    requires Loadable(chip, intf, file)
    ensures IsValidSize(|r|)
  {
    var s := Probe(chip, intf, file);
    file[HeaderLength(s)..][..s.iccm]
  }

  function DccmImage(chip: Chip, intf: Interface, file: seq<byte>): (r: seq<byte>)
    requires Loadable(chip, intf, file)
    ensures IsValidSize(|r|)
  {
    var s := Probe(chip, intf, file);
    file[HeaderLength(s) + s.iccm + s.addIccm..][..s.dccm]
  }

  /** A file with the 8-byte header: ICCM size, DCCM size, ICCM, DCCM. */
  function ShortLayout(iccm: seq<byte>, dccm: seq<byte>): seq<byte>
    requires IsValidSize(|iccm|) && IsValidSize(|dccm|)
  {
    Le32(|iccm|) + Le32(|dccm|) + iccm + dccm
  }

  /** A file with the 12-byte header, whose extra ICCM follows the ICCM. */
  function LongLayout(iccm: seq<byte>, extra: seq<byte>, dccm: seq<byte>): seq<byte>
    requires IsValidSize(|iccm|) && IsValidSize(|dccm|) && |extra| < 0x1_0000_0000
  {
    Le32(|iccm|) + Le32(|extra|) + Le32(|dccm|) + iccm + extra + dccm
  }

  /** Probe and loader find these sections in the file. */
  predicate Loads(chip: Chip, intf: Interface, file: seq<byte>, iccm: seq<byte>, dccm: seq<byte>) {
    Loadable(chip, intf, file) && IccmImage(chip, intf, file) == iccm && DccmImage(chip, intf, file) == dccm
  }

  /** Where a short file can be told apart from a long one. */
  predicate ReadsAsShort(chip: Chip, intf: Interface, iccm: seq<byte>, dccm: seq<byte>) {
    MayCarryExtraIccm(chip, intf) ==> Le32(W1U_ROM_START_CODE) <= iccm + dccm
  }

  lemma ShortHeader(iccm: seq<byte>, dccm: seq<byte>)
    requires IsValidSize(|iccm|) && IsValidSize(|dccm|)
    ensures var f := ShortLayout(iccm, dccm);
            && WordAt(f, 0) == |iccm| && WordAt(f, 4) == |dccm| && |f| == 8 + |iccm + dccm|
            && (|f| >= 12 ==> (WordAt(f, 8) == W1U_ROM_START_CODE <==> Le32(W1U_ROM_START_CODE) <= iccm + dccm))
  {
    var f := ShortLayout(iccm, dccm);
    assert f[0..4] == Le32(|iccm|) && f[4..8] == Le32(|dccm|) && f[8..] == iccm + dccm;
    Le32RoundTrip(|iccm|);
    Le32RoundTrip(|dccm|);
    if |f| >= 12 {
      assert f[8..12] == (iccm + dccm)[..4];
      Le32RoundTrip(W1U_ROM_START_CODE);
      FromLe32RoundTrip(f[8..12]);
    }
  }

  /** Taken for a long file, a short one is too short to hold what its header seems to say. */
  lemma ShortReadAsLong(chip: Chip, intf: Interface, iccm: seq<byte>, dccm: seq<byte>)
    requires IsValidSize(|iccm|) && IsValidSize(|dccm|) && !ReadsAsShort(chip, intf, iccm, dccm)
    ensures !Loadable(chip, intf, ShortLayout(iccm, dccm))
  {
    var f := ShortLayout(iccm, dccm);
    ShortHeader(iccm, dccm);
    assert |f| >= 12 ==> Probe(chip, intf, f) == Sizes(|iccm|, WordAt(f, 8), |dccm|);
  }

  lemma ShortReadAsShort(chip: Chip, intf: Interface, iccm: seq<byte>, dccm: seq<byte>)
    requires IsValidSize(|iccm|) && IsValidSize(|dccm|) && ReadsAsShort(chip, intf, iccm, dccm)
    ensures Loads(chip, intf, ShortLayout(iccm, dccm), iccm, dccm)
  {
    var f := ShortLayout(iccm, dccm);
    ShortHeader(iccm, dccm);
    assert f[8..][..|iccm|] == iccm;
    assert f[8 + |iccm|..][..|dccm|] == dccm;
  }

  /**
   * The 8-byte header loads correctly exactly when the file cannot be taken for a
   * long one: on a W1U off USB its sections must start with the ROM start code.
   */
  lemma ShortLayoutLoads(chip: Chip, intf: Interface, iccm: seq<byte>, dccm: seq<byte>)
    requires IsValidSize(|iccm|) && IsValidSize(|dccm|)
    ensures Loads(chip, intf, ShortLayout(iccm, dccm), iccm, dccm) <==> ReadsAsShort(chip, intf, iccm, dccm)
  {
    if ReadsAsShort(chip, intf, iccm, dccm) {
      ShortReadAsShort(chip, intf, iccm, dccm);
    } else {
      ShortReadAsLong(chip, intf, iccm, dccm);
    }
  }

  /** The bytes of `s` spell the word `w` over and over. */
  predicate Repeats(s: seq<byte>, w: seq<byte>)
    requires |w| == 4
  {
    forall i :: 0 <= i < |s| ==> s[i] == w[i % 4]
  }

  lemma FixedUnderShift(s: seq<byte>, w: seq<byte>, i: nat)
    requires |w| == 4 && (w + s)[..|s|] == s && i < |s|
    ensures s[i] == w[i % 4]
  {
    assert s[i] == (w + s)[..|s|][i] == (w + s)[i];
    if i >= 4 {
      FixedUnderShift(s, w, i - 4);
      assert (i - 4) % 4 == i % 4;
    }
  }

  lemma RepeatsIsFixed(s: seq<byte>, w: seq<byte>)
    requires |w| == 4 && Repeats(s, w)
    ensures (w + s)[..|s|] == s
  {
    forall i | 0 <= i < |s|
      ensures (w + s)[..|s|][i] == s[i]
    {
      assert i >= 4 ==> (i - 4) % 4 == i % 4;
    }
  }

  /** Shifting a word in at the front changes nothing exactly if the sequence repeats that word. */
  lemma ShiftedByOneWord(s: seq<byte>, w: seq<byte>)
    requires |w| == 4
    ensures (w + s)[..|s|] == s <==> Repeats(s, w)
  {
    if (w + s)[..|s|] == s {
      forall i | 0 <= i < |s|
        ensures s[i] == w[i % 4]
      {
        FixedUnderShift(s, w, i);
      }
    }
    if Repeats(s, w) {
      RepeatsIsFixed(s, w);
    }
  }

  lemma LongHeader(iccm: seq<byte>, extra: seq<byte>, dccm: seq<byte>)
    requires IsValidSize(|iccm|) && IsValidSize(|dccm|) && |extra| < 0x1_0000_0000
    ensures var f := LongLayout(iccm, extra, dccm);
            WordAt(f, 0) == |iccm| && WordAt(f, 4) == |extra| && WordAt(f, 8) == |dccm| != W1U_ROM_START_CODE
  {
    var f := LongLayout(iccm, extra, dccm);
    assert f[0..4] == Le32(|iccm|) && f[4..8] == Le32(|extra|) && f[8..12] == Le32(|dccm|);
    Le32RoundTrip(|iccm|);
    Le32RoundTrip(|extra|);
    Le32RoundTrip(|dccm|);
  }

  lemma LongLayoutWithExtra(chip: Chip, intf: Interface, iccm: seq<byte>, extra: seq<byte>, dccm: seq<byte>)
    requires IsValidSize(|iccm|) && IsValidSize(|dccm|) && 0 < |extra| < 0x1_0000_0000
    requires MayCarryExtraIccm(chip, intf)
    ensures var f := LongLayout(iccm, extra, dccm);
            Loads(chip, intf, f, iccm, dccm)
  {
    var f := LongLayout(iccm, extra, dccm);
    LongHeader(iccm, extra, dccm);
    assert f[12..] == iccm + (extra + dccm);
    assert f[12..][..|iccm|] == iccm;
    assert f[12 + |iccm| + |extra|..][..|dccm|] == dccm;
  }

  lemma LongLayoutWithout(chip: Chip, intf: Interface, iccm: seq<byte>, dccm: seq<byte>)
    requires IsValidSize(|iccm|) && IsValidSize(|dccm|) && MayCarryExtraIccm(chip, intf)
    ensures var f := LongLayout(iccm, [], dccm); var s := iccm + dccm;
            Loadable(chip, intf, f)
            && IccmImage(chip, intf, f) + DccmImage(chip, intf, f) == (Le32(|dccm|) + s)[..|s|]
            && |IccmImage(chip, intf, f)| == |iccm|
  {
    var f := LongLayout(iccm, [], dccm);
    LongHeader(iccm, [], dccm);
    assert f[8..] == Le32(|dccm|) + (iccm + dccm);
  }

  /**
   * The 12-byte header loads correctly exactly when there is extra ICCM to skip:
   * with none, the loader falls back to the 8-byte header and takes the DCCM size
   * for the first ICCM word, which is harmless only if both sections consist of
   * that one word repeated.
   */
  lemma LongLayoutLoads(chip: Chip, intf: Interface, iccm: seq<byte>, extra: seq<byte>, dccm: seq<byte>)
    requires IsValidSize(|iccm|) && IsValidSize(|dccm|) && |extra| < 0x1_0000_0000
    requires MayCarryExtraIccm(chip, intf)
    ensures var f := LongLayout(iccm, extra, dccm);
            Loadable(chip, intf, f) &&
            (Loads(chip, intf, f, iccm, dccm) <==> extra != [] || Repeats(iccm + dccm, Le32(|dccm|)))
  {
    var f := LongLayout(iccm, extra, dccm);
    if extra != [] {
      LongLayoutWithExtra(chip, intf, iccm, extra, dccm);
    } else {
      LongLayoutWithout(chip, intf, iccm, dccm);
      var i, d := IccmImage(chip, intf, f), DccmImage(chip, intf, f);
      SameCut(i, d, iccm, dccm);
      ShiftedByOneWord(iccm + dccm, Le32(|dccm|));
    }
  }

  lemma SameCut(a: seq<byte>, b: seq<byte>, a': seq<byte>, b': seq<byte>)
    requires |a| == |a'|
    ensures a + b == a' + b' <==> a == a' && b == b'
  {
    assert a == (a + b)[..|a|] && b == (a + b)[|a|..];
    assert a' == (a' + b')[..|a|] && b' == (a' + b')[|a|..];
  }
}

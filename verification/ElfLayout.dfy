// Headers of an ELF file as `struct` packs them, and what is read from them (relocate_sdk.py:60-84, 114-142).
module ElfLayout {
  import opened Prelude
  import opened Relocation

  // ----- packing -----

  function Reversed(b: bytes): (r: bytes)
    ensures |r| == |b|
  {
    if b == [] then [] else Reversed(b[1..]) + [b[0]]
  }

  function PackOne(n: nat, size: nat, little: bool): (p: bytes)
    ensures |p| == size
  {
    if little then Pack(n, size) else Reversed(Pack(n, size))
  }

  // struct.pack with one number for each size
  function PackAll(values: seq<nat>, sizes: seq<nat>, little: bool): bytes
    requires |values| == |sizes|
  {
    if values == [] then [] else PackOne(values[0], sizes[0], little) + PackAll(values[1..], sizes[1..], little)
  }

  // The offset of field `j`.
  function OffsetOf(sizes: seq<nat>, j: nat): nat
    requires j <= |sizes|
  {
    if j == 0 then 0 else sizes[0] + OffsetOf(sizes[1..], j - 1)
  }

  lemma {:induction false} BigIsReversed(b: bytes)
    ensures BigEndian(Reversed(b)) == LittleEndian(b)
  {
    if b != [] {
      BigIsReversed(b[1..]);
      var r := Reversed(b);
      assert r[..|r| - 1] == Reversed(b[1..]) && r[|r| - 1] == b[0];
    }
  }

  lemma {:induction false} OneReadBack(n: nat, size: nat, little: bool)
    requires n < Power(size)
    ensures Number(PackOne(n, size, little), little) == n
  {
    PackReadBack(n, size);
    BigIsReversed(Pack(n, size));
  }

  lemma {:induction false} PackedSize(values: seq<nat>, sizes: seq<nat>, little: bool)
    requires |values| == |sizes|
    ensures |PackAll(values, sizes, little)| == OffsetOf(sizes, |sizes|)
  {
    if values != [] {
      PackedSize(values[1..], sizes[1..], little);
    }
  }

  lemma {:induction false} FieldsFit(sizes: seq<nat>, j: nat)
    requires j < |sizes|
    ensures OffsetOf(sizes, j) + sizes[j] <= OffsetOf(sizes, |sizes|)
  {
    if j > 0 {
      FieldsFit(sizes[1..], j - 1);
    }
  }

  lemma {:induction false} PackedAt(values: seq<nat>, sizes: seq<nat>, little: bool, j: nat)
    requires |values| == |sizes| && j < |sizes|
    requires OffsetOf(sizes, j) + sizes[j] <= |PackAll(values, sizes, little)|
    ensures PackAll(values, sizes, little)[OffsetOf(sizes, j)..OffsetOf(sizes, j) + sizes[j]] ==
      PackOne(values[j], sizes[j], little)
  {
    hide PackOne;
    var (first, rest) := (PackOne(values[0], sizes[0], little), PackAll(values[1..], sizes[1..], little));
    if j > 0 {
      var at := OffsetOf(sizes[1..], j - 1);
      PackedAt(values[1..], sizes[1..], little, j - 1);
      Behind(first, rest, at, sizes[j]);
    }
  }

  lemma Behind(first: bytes, rest: bytes, at: nat, n: nat)
    requires at + n <= |rest|
    ensures (first + rest)[|first| + at..|first| + at + n] == rest[at..at + n]
  {}

  // The numbers packed into `b` from `at` on fit their fields.
  predicate HoldsPacked(b: bytes, at: nat, values: seq<nat>, sizes: seq<nat>, little: bool) {
    && |values| == |sizes| && at + OffsetOf(sizes, |sizes|) <= |b|
    && b[at..at + OffsetOf(sizes, |sizes|)] == PackAll(values, sizes, little)
    && forall j :: 0 <= j < |sizes| ==> values[j] < Power(sizes[j])
  }

  lemma {:induction false} FieldReadBack(b: bytes, at: nat, values: seq<nat>, sizes: seq<nat>, little: bool, j: nat)
    requires HoldsPacked(b, at, values, sizes, little) && j < |sizes|
    ensures var off := at + OffsetOf(sizes, j);
      off + sizes[j] <= |b| && Field(b, off, sizes[j], little) == values[j]
  {
    hide PackAll, OffsetOf, Number;
    PackedSize(values, sizes, little);
    FieldsFit(sizes, j);
    PackedAt(values, sizes, little, j);
    SliceOfSlice(b, at, OffsetOf(sizes, |sizes|), OffsetOf(sizes, j), sizes[j]);
    OneReadBack(values[j], sizes[j], little);
  }

  lemma SliceOfSlice(b: bytes, at: nat, n: nat, off: nat, m: nat)
    requires at + n <= |b| && off + m <= n
    ensures b[at..at + n][off..off + m] == b[at + off..at + off + m]
  {
    var (s, t) := (b[at..at + n][off..off + m], b[at + off..at + off + m]);
    assert |s| == |t| && forall k :: 0 <= k < m ==> s[k] == t[k];
  }

  // ----- the two kinds of headers -----

  // p_type, p_offset, p_vaddr, p_paddr, p_filesz, p_memsz, p_flags, p_align
  const PROGRAM_32: seq<nat> := [4, 4, 4, 4, 4, 4, 4, 4]
  // p_type, p_flags, p_offset, p_vaddr, p_paddr, p_filesz, p_memsz, p_align
  const PROGRAM_64: seq<nat> := [4, 4, 8, 8, 8, 8, 8, 8]
  // sh_name, sh_type, sh_flags, sh_addr, sh_offset, sh_size, sh_link, sh_info, sh_addralign, sh_entsize
  const SECTION_32: seq<nat> := [4, 4, 4, 4, 4, 4, 4, 4, 4, 4]
  const SECTION_64: seq<nat> := [4, 4, 8, 8, 8, 8, 4, 4, 8, 8]

  lemma {:induction false} ProgramOffsets()
    ensures OffsetOf(PROGRAM_32, 8) == 32 && OffsetOf(PROGRAM_64, 8) == 56
    ensures OffsetOf(PROGRAM_32, 0) == 0 && OffsetOf(PROGRAM_32, 1) == 4 && OffsetOf(PROGRAM_32, 4) == 16
    ensures OffsetOf(PROGRAM_64, 0) == 0 && OffsetOf(PROGRAM_64, 2) == 8 && OffsetOf(PROGRAM_64, 5) == 32
  {
    hide OffsetOf;
    FirstOffsets(PROGRAM_32);
    FirstOffsets(PROGRAM_64);
  }

  lemma {:induction false} SectionOffsets()
    ensures OffsetOf(SECTION_32, 10) == 40 && OffsetOf(SECTION_64, 10) == 64
    ensures OffsetOf(SECTION_32, 0) == 0 && OffsetOf(SECTION_32, 1) == 4
    ensures OffsetOf(SECTION_32, 4) == 16 && OffsetOf(SECTION_32, 5) == 20
    ensures OffsetOf(SECTION_64, 0) == 0 && OffsetOf(SECTION_64, 1) == 4
    ensures OffsetOf(SECTION_64, 4) == 24 && OffsetOf(SECTION_64, 5) == 32
  {
    hide OffsetOf;
    FirstOffsets(SECTION_32);
    FirstOffsets(SECTION_64);
    NextOffset(SECTION_32, 8);
    NextOffset(SECTION_32, 9);
    NextOffset(SECTION_64, 8);
    NextOffset(SECTION_64, 9);
  }

  lemma {:induction false} FirstOffsets(sizes: seq<nat>)
    requires |sizes| >= 8
    ensures OffsetOf(sizes, 0) == 0 && OffsetOf(sizes, 1) == sizes[0]
    ensures OffsetOf(sizes, 2) == sizes[0] + sizes[1]
    ensures OffsetOf(sizes, 4) == sizes[0] + sizes[1] + sizes[2] + sizes[3]
    ensures OffsetOf(sizes, 5) == OffsetOf(sizes, 4) + sizes[4]
    ensures OffsetOf(sizes, 8) == OffsetOf(sizes, 5) + sizes[5] + sizes[6] + sizes[7]
  {
    assert OffsetOf(sizes, 0) == 0;
    hide OffsetOf;
    NextOffset(sizes, 0);
    NextOffset(sizes, 1);
    NextOffset(sizes, 2);
    NextOffset(sizes, 3);
    NextOffset(sizes, 4);
    NextOffset(sizes, 5);
    NextOffset(sizes, 6);
    NextOffset(sizes, 7);
  }

  lemma {:induction false} NextOffset(sizes: seq<nat>, j: nat)
    requires j < |sizes|
    ensures OffsetOf(sizes, j + 1) == OffsetOf(sizes, j) + sizes[j]
  {
    if j > 0 {
      NextOffset(sizes[1..], j - 1);
    }
  }

  // A program header that is packed in its place is read: its type, and where its segment lies in the file.
  lemma {:induction false} ProgramHeaderReadBack(b: bytes, elf: Elf, i: nat, values: seq<nat>)
    requires elf.phentsize == if elf.wide then 56 else 32
    requires HoldsPacked(b, elf.phoff + i * elf.phentsize, values, if elf.wide then PROGRAM_64 else PROGRAM_32,
                         elf.little)
    ensures ProgramHeaderAt(b, elf, i) ==
      Ok(if elf.wide then ProgramHeader(values[0], values[2], values[5])
         else ProgramHeader(values[0], values[1], values[4]))
  {
    hide HoldsPacked, OffsetOf, Field;
    var (at, sizes) := (elf.phoff + i * elf.phentsize, if elf.wide then PROGRAM_64 else PROGRAM_32);
    ProgramOffsets();
    PackedFits(b, at, values, sizes, elf.little);
    FieldReadBack(b, at, values, sizes, elf.little, 0);
    FieldReadBack(b, at, values, sizes, elf.little, if elf.wide then 2 else 1);
    FieldReadBack(b, at, values, sizes, elf.little, if elf.wide then 5 else 4);
  }

  // The first program header of type 3 says where the interpreter is.
  lemma {:induction false} InterpreterReadBack(b: bytes, elf: Elf, i: nat, values: seq<nat>, from: nat)
    requires elf.phentsize == (if elf.wide then 56 else 32) && from <= i < elf.phnum
    requires HoldsPacked(b, elf.phoff + i * elf.phentsize, values, if elf.wide then PROGRAM_64 else PROGRAM_32,
                         elf.little)
    requires values[0] == 3
    requires forall k: nat :: from <= k < i ==>
      ProgramHeaderAt(b, elf, k).Ok? && ProgramHeaderAt(b, elf, k).value.kind != 3
    ensures FindInterp(b, elf, from) ==
      Ok(Some(if elf.wide then Region(values[2], values[5]) else Region(values[1], values[4])))
    decreases i - from
  {
    hide HoldsPacked, ProgramHeaderAt;
    if from == i {
      ProgramHeaderReadBack(b, elf, i, values);
    } else {
      InterpreterReadBack(b, elf, i, values, from + 1);
    }
  }

  // The same for a section header: name, type, offset and size.
  lemma {:induction false} SectionHeaderReadBack(b: bytes, elf: Elf, strtab: bytes, i: nat, values: seq<nat>)
    requires elf.shentsize == if elf.wide then 64 else 40
    requires HoldsPacked(b, elf.shoff + i * elf.shentsize, values, if elf.wide then SECTION_64 else SECTION_32,
                         elf.little)
    ensures SectionAt(b, elf, strtab, i) ==
      Ok(Section(NameAt(strtab, values[0]), values[1], Region(values[4], values[5])))
  {
    hide HoldsPacked, OffsetOf, Field, NameAt;
    var (at, sizes) := (elf.shoff + i * elf.shentsize, if elf.wide then SECTION_64 else SECTION_32);
    SectionOffsets();
    PackedFits(b, at, values, sizes, elf.little);
    FieldReadBack(b, at, values, sizes, elf.little, 0);
    FieldReadBack(b, at, values, sizes, elf.little, 1);
    FieldReadBack(b, at, values, sizes, elf.little, 4);
    FieldReadBack(b, at, values, sizes, elf.little, 5);
  }

  lemma PackedFits(b: bytes, at: nat, values: seq<nat>, sizes: seq<nat>, little: bool)
    requires HoldsPacked(b, at, values, sizes, little)
    ensures |values| == |sizes| && at + OffsetOf(sizes, |sizes|) <= |b|
  {}

  // A name in the string table is read up to its NUL.
  lemma {:induction false} NameReadBack(before: bytes, name: bytes, after: bytes)
    requires 0 !in name
    ensures NameAt(before + name + [0] + after, |before|) == name
  {
    var strtab := before + name + [0] + after;
    assert strtab[|before|..] == name + [0] + after;
    FirstNulIs(name, after);
    assert strtab[|before|..|before| + |name|] == name;
  }

  // ----- relocated texts -----

  // The first occurrence of the old prefix becomes the new one, and what is behind it is relocated in turn.
  lemma {:induction false} PrefixIsReplaced(before: bytes, after: bytes, newPrefix: bytes)
    requires forall i :: 0 <= i < |before| ==> !(OLD_PREFIX <= (before + OLD_PREFIX + after)[i..])
    ensures Relocated(before + OLD_PREFIX + after, newPrefix) == before + newPrefix + Relocated(after, newPrefix)
    decreases |before|
  {
    var text := before + OLD_PREFIX + after;
    assert text[0..] == text && OLD_PREFIX != [];
    if before == [] {
      assert text == OLD_PREFIX + after && text[|OLD_PREFIX|..] == after && text[..|OLD_PREFIX|] == OLD_PREFIX;
      assert [] + newPrefix == newPrefix;
    } else {
      var rest := before[1..] + OLD_PREFIX + after;
      assert text[1..] == rest;
      forall i | 0 <= i < |before[1..]| ensures !(OLD_PREFIX <= rest[i..]) {
        assert rest[i..] == text[i + 1..];
      }
      PrefixIsReplaced(before[1..], after, newPrefix);
      assert [before[0]] + (before[1..] + newPrefix + Relocated(after, newPrefix)) ==
        before + newPrefix + Relocated(after, newPrefix);
    }
  }
}

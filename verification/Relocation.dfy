// Relocating the binaries of an SDK (poky/scripts/relocate_sdk.py): parts of an ELF file are
// rewritten in place.
module Relocation {
  import opened Prelude
  import Text

  newtype byte = x: int | 0 <= x < 256

  type bytes = seq<byte>

  function Bytes(s: string): bytes {
    seq(|s|, i requires 0 <= i < |s| => (s[i] as int % 256) as byte)
  }

  // What stands for the installation directory in a file that has not been relocated.
  const OLD_PREFIX := Bytes("##DEFAULT_INSTALL_DIR##")

  // A header cannot be unpacked; a text is too long for its place (`sys.exit`); a write would make
  // the file longer; there is a `.sysdirs` without a `.sysdirslen` (UnboundLocalError).
  datatype Failure = StructError | TooLong | Grows | NoLengths

  // What `parse_elf_header` finds out.
  datatype Elf = Elf(wide: bool, little: bool, phoff: nat, phentsize: nat, phnum: nat,
                     shoff: nat, shentsize: nat, shnum: nat, shstrndx: nat)

  datatype Region = Region(off: nat, size: nat)

  predicate Within(k: int, r: Region) {
    r.off <= k < r.off + r.size
  }

  predicate Disjoint(r: Region, q: Region) {
    r.off + r.size <= q.off || q.off + q.size <= r.off
  }

  // ----- numbers -----

  function LittleEndian(b: bytes): nat {
    if b == [] then 0 else b[0] as int + 256 * LittleEndian(b[1..])
  }

  function BigEndian(b: bytes): nat {
    if b == [] then 0 else BigEndian(b[..|b| - 1]) * 256 + b[|b| - 1] as int
  }

  function Number(b: bytes, little: bool): nat {
    if little then LittleEndian(b) else BigEndian(b)
  }

  // The number in the `n` bytes from `off` on.
  function Field(b: bytes, off: nat, n: nat, little: bool): nat
    requires off + n <= |b|
  {
    Number(b[off..off + n], little)
  }

  // ----- reading and writing -----

  // read(n) at `off`, as far as the file goes
  function Slice(b: bytes, off: nat, n: nat): (s: bytes)
    ensures |s| <= n && (off + n <= |b| ==> s == b[off..off + n])
  {
    if off >= |b| then [] else if off + n <= |b| then b[off..off + n] else b[off..]
  }

  function Written(b: bytes, off: nat, text: bytes): (c: bytes)
    requires off + |text| <= |b|
    ensures |c| == |b| && c[off..off + |text|] == text
    ensures forall k :: 0 <= k < |b| && !Within(k, Region(off, |text|)) ==> c[k] == b[k]
  {
    b[..off] + text + b[off + |text|..]
  }

  lemma {:induction false} IsWritten(b: bytes, off: nat, text: bytes, c: bytes)
    requires off + |text| <= |b| == |c|
    requires forall k :: 0 <= k < |b| ==> c[k] == if off <= k < off + |text| then text[k - off] else b[k]
    ensures c == Written(b, off, text)
  {
    var goal := Written(b, off, text);
    forall k | 0 <= k < |b| ensures c[k] == goal[k] {
      if off <= k < off + |text| {
        assert goal[off..off + |text|][k - off] == text[k - off];
      }
    }
  }

  function Zeros(n: nat): (z: bytes)
    ensures |z| == n && forall i :: 0 <= i < n ==> z[i] == 0
  {
    seq(n, _ => 0)
  }

  function Padded(text: bytes, size: nat): (p: bytes)
    requires |text| <= size
    ensures |p| == size
  {
    text + Zeros(size - |text|)
  }

  // rstrip(b"\0")
  function RStrip(b: bytes): (s: bytes)
    ensures s <= b && (s != [] ==> s[|s| - 1] != 0)
    ensures forall i :: |s| <= i < |b| ==> b[i] == 0
  {
    if b != [] && b[|b| - 1] == 0 then RStrip(b[..|b| - 1]) else b
  }

  function Relocated(text: bytes, newPrefix: bytes): bytes {
    Text.Replace(text, OLD_PREFIX, newPrefix)
  }

  // ----- the program interpreter -----

  datatype ProgramHeader = ProgramHeader(kind: nat, off: nat, filesz: nat)

  function ProgramHeaderAt(b: bytes, elf: Elf, i: nat): Result<ProgramHeader, Failure> {
    var at := elf.phoff + i * elf.phentsize;
    if elf.phentsize != (if elf.wide then 56 else 32) || at + elf.phentsize > |b| then Err(StructError)
    else if elf.wide then Ok(ProgramHeader(Field(b, at, 4, elf.little), Field(b, at + 8, 8, elf.little),
      Field(b, at + 32, 8, elf.little)))
    else Ok(ProgramHeader(Field(b, at, 4, elf.little), Field(b, at + 4, 4, elf.little),
      Field(b, at + 16, 4, elf.little)))
  }

  const PT_INTERP := 3

  // The first PT_INTERP entry from `i` on.
  function FindInterp(b: bytes, elf: Elf, i: nat): Result<Option<Region>, Failure>
    decreases elf.phnum - i
  {
    if i >= elf.phnum then Ok(None)
    else match ProgramHeaderAt(b, elf, i)
      case Err(e) => Err(e)
      case Ok(ph) => if ph.kind == PT_INTERP then Ok(Some(Region(ph.off, ph.filesz))) else FindInterp(b, elf, i + 1)
  }

  // Interpreters under these directories are not ours.
  predicate IsForeign(fname: bytes) {
    || Bytes("/lib/") <= fname || Bytes("/lib64/") <= fname || Bytes("/lib32/") <= fname
    || Bytes("/usr/lib32/") <= fname || Bytes("/usr/lib64/") <= fname
  }

  // Does the entry get the new path, which then has to fit with a NUL behind it?
  function InterpChange(b: bytes, r: Region, newPath: bytes): Result<Option<bytes>, Failure> {
    if IsForeign(Slice(b, r.off, 11)) || r.size == 0 then Ok(Some(b))
    else if |newPath| >= r.size then Ok(None)
    else if r.off + r.size > |b| then Err(Grows)
    else Ok(Some(Written(b, r.off, Padded(newPath, r.size))))
  }

  // `change_interpreter`: the new contents, or None when the path does not fit
  function AfterInterp(b: bytes, elf: Elf, newPath: bytes): Result<Option<bytes>, Failure> {
    match FindInterp(b, elf, 0)
    case Err(e) => Err(e)
    case Ok(None) => Ok(Some(b))
    case Ok(Some(r)) => InterpChange(b, r, newPath)
  }

  // A text in its place: followed by NULs up to the end of the place, by one at least.
  predicate HoldsText(b: bytes, r: Region, text: bytes) {
    r.off + r.size <= |b| && |text| < r.size && text <= b[r.off..]
      && forall k :: r.off + |text| <= k < r.off + r.size ==> b[k] == 0
  }

  lemma {:induction false} WrittenHolds(b: bytes, r: Region, text: bytes)
    requires r.off + r.size <= |b| && |text| < r.size
    ensures HoldsText(Written(b, r.off, Padded(text, r.size)), r, text)
  {
    hide Written, Zeros;
    var c := Written(b, r.off, Padded(text, r.size));
    var p := Padded(text, r.size);
    forall k | 0 <= k < r.size ensures c[r.off + k] == p[k] {
      assert c[r.off..r.off + r.size][k] == p[k];
    }
    assert text <= c[r.off..] by {
      assert forall k | 0 <= k < |text| :: c[r.off..][k] == c[r.off + k] == text[k];
    }
  }

  // Rewriting the interpreter keeps the length of the file and every byte outside the place of the
  // first PT_INTERP entry; that place is left alone or holds the new path with at least one NUL.
  lemma {:induction false} InterpFrame(b: bytes, elf: Elf, newPath: bytes, c: bytes)
    requires AfterInterp(b, elf, newPath) == Ok(Some(c))
    ensures |c| == |b|
    ensures c == b || (FindInterp(b, elf, 0).Ok? && FindInterp(b, elf, 0).value.Some?
      && var r := FindInterp(b, elf, 0).value.value;
         HoldsText(c, r, newPath) && forall k :: 0 <= k < |b| && !Within(k, r) ==> c[k] == b[k])
  {
    var found := FindInterp(b, elf, 0);
    if found.value.Some? && c != b {
      WrittenHolds(b, found.value.value, newPath);
    }
  }

  // The directories under which an interpreter is not ours.
  const FOREIGN := ["/lib/", "/lib64/", "/lib32/", "/usr/lib32/", "/usr/lib64/"]

  predicate LiesUnder(b: bytes, off: nat, dir: string) {
    off <= |b| && Bytes(dir) <= b[off..]
  }

  lemma {:induction false} ForeignMeansUnder(b: bytes, off: nat)
    ensures IsForeign(Slice(b, off, 11)) <==> exists dir :: dir in FOREIGN && LiesUnder(b, off, dir)
  {
    hide Slice;
    var fname := Slice(b, off, 11);
    forall dir | dir in FOREIGN ensures Bytes(dir) <= fname <==> LiesUnder(b, off, dir) {
      PrefixOfSlice(b, off, Bytes(dir));
    }
    assert FOREIGN[0] in FOREIGN && FOREIGN[1] in FOREIGN && FOREIGN[2] in FOREIGN && FOREIGN[3] in FOREIGN
      && FOREIGN[4] in FOREIGN;
  }

  lemma {:induction false} PrefixOfSlice(b: bytes, off: nat, dir: bytes)
    requires 0 < |dir| <= 11
    ensures dir <= Slice(b, off, 11) <==> off <= |b| && dir <= b[off..]
  {
    if off < |b| {
      assert Slice(b, off, 11) <= b[off..];
    }
  }

  // The interpreter of a file gets the new path, or fails to for lack of room, exactly when there is one and
  // it does not lie under one of those directories.
  lemma {:induction false} InterpIsRewritten(b: bytes, elf: Elf, newPath: bytes, r: Region)
    requires FindInterp(b, elf, 0) == Ok(Some(r))
    ensures var keeps := r.size == 0 || exists dir :: dir in FOREIGN && LiesUnder(b, r.off, dir);
      var result := AfterInterp(b, elf, newPath);
      && (keeps ==> result == Ok(Some(b)))
      && (!keeps ==> (result == Ok(None) <==> |newPath| >= r.size))
      && (!keeps && |newPath| < r.size ==>
            if r.off + r.size <= |b| then result.Ok? && HoldsText(result.value.value, r, newPath) else result.Err?)
  {
    ForeignMeansUnder(b, r.off);
    if |newPath| < r.size && r.off + r.size <= |b| {
      WrittenHolds(b, r, newPath);
    }
  }

  // What the search finds is an entry of the table, and no entry before it is of that kind.
  lemma {:induction false} InterpIsFirst(b: bytes, elf: Elf, i: nat)
    requires FindInterp(b, elf, i).Ok?
    ensures match FindInterp(b, elf, i).value
      case None => NoneBefore(b, elf, i, elf.phnum)
      case Some(r) => exists j: nat :: i <= j < elf.phnum && IsInterp(b, elf, j, r) && NoneBefore(b, elf, i, j)
    decreases elf.phnum - i
  {
    if i < elf.phnum {
      var ph := ProgramHeaderAt(b, elf, i).value;
      if ph.kind == PT_INTERP {
        assert IsInterp(b, elf, i, Region(ph.off, ph.filesz));
      } else {
        InterpIsFirst(b, elf, i + 1);
      }
    }
  }

  predicate NoneBefore(b: bytes, elf: Elf, i: nat, j: nat) {
    forall k: nat :: i <= k < j ==> ProgramHeaderAt(b, elf, k).Ok? && ProgramHeaderAt(b, elf, k).value.kind != PT_INTERP
  }

  predicate IsInterp(b: bytes, elf: Elf, j: nat, r: Region) {
    ProgramHeaderAt(b, elf, j) == Ok(ProgramHeader(PT_INTERP, r.off, r.size))
  }

  // ----- the sections -----

  datatype Section = Section(name: bytes, kind: nat, place: Region)

  // strtab[start:strtab.find(b"\0", start)]; without a NUL the last byte is cut off.
  function NameAt(strtab: bytes, start: nat): bytes {
    if start >= |strtab| then []
    else
      var n := Text.Find(strtab[start..], 0);
      if n < |strtab| - start then strtab[start..start + n] else strtab[start..|strtab| - 1]
  }

  // Where the header of section `i` is.
  function HeaderPlace(elf: Elf, i: nat): Region {
    Region(elf.shoff + i * elf.shentsize, elf.shentsize)
  }

  predicate HeaderFits(b: bytes, elf: Elf, i: nat) {
    elf.shentsize == (if elf.wide then 64 else 40) && HeaderPlace(elf, i).off + elf.shentsize <= |b|
  }

  function SectionAt(b: bytes, elf: Elf, strtab: bytes, i: nat): Result<Section, Failure> {
    var at := HeaderPlace(elf, i).off;
    if !HeaderFits(b, elf, i) then Err(StructError)
    else
      var place := if elf.wide then Region(Field(b, at + 24, 8, elf.little), Field(b, at + 32, 8, elf.little))
                   else Region(Field(b, at + 16, 4, elf.little), Field(b, at + 20, 4, elf.little));
      Ok(Section(NameAt(strtab, Field(b, at, 4, elf.little)), Field(b, at + 4, 4, elf.little), place))
  }

  function StringTable(b: bytes, elf: Elf): Result<bytes, Failure> {
    match SectionAt(b, elf, [], elf.shstrndx)
    case Err(e) => Err(e)
    case Ok(section) => Ok(Slice(b, section.place.off, section.place.size))
  }

  const SHT_PROGBITS := 1

  datatype Role = LdSoCache | GccPrefix | SysDirs | SysDirsLen | Other

  function RoleOf(section: Section): Role {
    if section.kind != SHT_PROGBITS then Other
    else if section.name == Bytes(".sysdirs") then SysDirs
    else if section.name == Bytes(".sysdirslen") then SysDirsLen
    else if section.name == Bytes(".ldsocache") then LdSoCache
    else if section.name == Bytes(".gccrelocprefix") then GccPrefix
    else Other
  }

  // The sections are known by their names, and sections of other types are left alone.
  lemma RolesByName(kind: nat, place: Region)
    ensures RoleOf(Section(Bytes(".ldsocache"), 1, place)) == LdSoCache
    ensures RoleOf(Section(Bytes(".gccrelocprefix"), 1, place)) == GccPrefix
    ensures RoleOf(Section(Bytes(".sysdirs"), 1, place)) == SysDirs
    ensures RoleOf(Section(Bytes(".sysdirslen"), 1, place)) == SysDirsLen
    ensures kind != 1 ==> forall name :: RoleOf(Section(name, kind, place)) == Other
  {
    assert |Bytes(".sysdirs")| == 8 && |Bytes(".sysdirslen")| == 11 && |Bytes(".ldsocache")| == 10
      && |Bytes(".gccrelocprefix")| == 15;
  }

  // The new text of a place: the old one, relocated, without the NULs behind it.
  function NewText(b: bytes, r: Region, newPrefix: bytes): bytes {
    RStrip(Relocated(Slice(b, r.off, r.size), newPrefix))
  }

  // `.ldsocache`, and one slot of `.gccrelocprefix`
  function AfterPlace(b: bytes, r: Region, newPrefix: bytes): Result<bytes, Failure> {
    var text := NewText(b, r, newPrefix);
    if |text| >= r.size then Err(TooLong)
    else if r.off + r.size > |b| then Err(Grows)
    else Ok(Written(b, r.off, Padded(text, r.size)))
  }

  const SLOT: nat := 4096

  function Slot(r: Region, k: nat): Region {
    Region(r.off + k * SLOT, SLOT)
  }

  // `.gccrelocprefix`: all slots from `k` on that lie wholly in the section
  function AfterSlots(b: bytes, r: Region, newPrefix: bytes, k: nat): Result<bytes, Failure>
    decreases r.size - k * SLOT
  {
    if (k + 1) * SLOT > r.size then Ok(b)
    else match AfterPlace(b, Slot(r, k), newPrefix)
      case Err(e) => Err(e)
      case Ok(c) => AfterSlots(c, r, newPrefix, k + 1)
  }

  // What the loop over the sections remembers of `.sysdirs` and `.sysdirslen`.
  datatype Dirs = Dirs(dirs: Option<(bytes, Region)>, lens: Option<nat>)

  function AfterSection(b: bytes, section: Section, newPrefix: bytes): Result<bytes, Failure> {
    match RoleOf(section)
    case LdSoCache => AfterPlace(b, section.place, newPrefix)
    case GccPrefix => AfterSlots(b, section.place, newPrefix, 0)
    case _ => Ok(b)
  }

  function Remember(b: bytes, section: Section, seen: Dirs): Dirs {
    match RoleOf(section)
    case SysDirs => seen.(dirs := Some((Slice(b, section.place.off, section.place.size), section.place)))
    case SysDirsLen => seen.(lens := Some(section.place.off))
    case _ => seen
  }

  // The loop over the sections from `i` on.
  function AfterSections(b: bytes, elf: Elf, strtab: bytes, newPrefix: bytes, i: nat,
                         seen: Dirs): Result<(bytes, Dirs), Failure>
    decreases elf.shnum - i
  {
    if i >= elf.shnum then Ok((b, seen))
    else match SectionAt(b, elf, strtab, i)
      case Err(e) => Err(e)
      case Ok(section) =>
        match AfterSection(b, section, newPrefix)
        case Err(e) => Err(e)
        case Ok(c) => AfterSections(c, elf, strtab, newPrefix, i + 1, Remember(b, section, seen))
  }

  // ----- the library directories of the dynamic loader -----

  // The paths up to the first empty one.
  function Paths(dirs: bytes): seq<bytes>
    decreases |dirs|
  {
    var n := Text.Find(dirs, 0);
    if n == 0 then [] else [dirs[..n]] + if n < |dirs| then Paths(dirs[n + 1..]) else []
  }

  function NewDirs(paths: seq<bytes>, newPrefix: bytes): bytes {
    if paths == [] then [] else Relocated(paths[0], newPrefix) + [0] + NewDirs(paths[1..], newPrefix)
  }

  // struct.pack("<L" or "<Q"), for numbers that fit
  function Pack(n: nat, size: nat): (p: bytes)
    ensures |p| == size
    decreases size
  {
    if size == 0 then [] else [(n % 256) as byte] + Pack(n / 256, size - 1)
  }

  function Lengths(paths: seq<bytes>, newPrefix: bytes, size: nat): (l: bytes)
    ensures |l| == |paths| * size
  {
    if paths == [] then [] else Pack(|Relocated(paths[0], newPrefix)|, size) + Lengths(paths[1..], newPrefix, size)
  }

  function PadTo(text: bytes, size: nat): bytes {
    if |text| < size then Padded(text, size) else text
  }

  // Both sections are written back; nothing checks that the new contents fit.
  function AfterDirs(b: bytes, elf: Elf, seen: Dirs, newPrefix: bytes): Result<bytes, Failure> {
    match (seen.dirs, seen.lens)
    case (Some((dirs, place)), Some(lensOff)) =>
      var paths := Paths(dirs);
      var newDirs := PadTo(NewDirs(paths, newPrefix), place.size);
      var newLens := Lengths(paths, newPrefix, if elf.wide then 8 else 4);
      if place.off + |newDirs| > |b| || lensOff + |newLens| > |b| then Err(Grows)
      else Ok(Written(Written(b, place.off, newDirs), lensOff, newLens))
    case (Some(_), None) => Err(NoLengths)
    case (None, _) => Ok(b)
  }

  // `change_dl_sysdirs`
  function AfterSysdirs(b: bytes, elf: Elf, newPrefix: bytes): Result<bytes, Failure> {
    match StringTable(b, elf)
    case Err(e) => Err(e)
    case Ok(strtab) =>
      match AfterSections(b, elf, strtab, newPrefix, 0, Dirs(None, None))
      case Err(e) => Err(e)
      case Ok((c, seen)) => AfterDirs(c, elf, seen, newPrefix)
  }

  // ----- what relocating leaves alone, and what it leaves behind -----

  predicate SameAt(b: bytes, c: bytes, r: Region) {
    |c| == |b| && forall k :: 0 <= k < |b| && Within(k, r) ==> c[k] == b[k]
  }

  predicate SameOutside(b: bytes, c: bytes, r: Region) {
    |c| == |b| && forall k :: 0 <= k < |b| && !Within(k, r) ==> c[k] == b[k]
  }

  lemma {:induction false} SameSlice(b: bytes, c: bytes, r: Region)
    requires SameAt(b, c, r)
    ensures Slice(c, r.off, r.size) == Slice(b, r.off, r.size)
  {
    var s, t := Slice(b, r.off, r.size), Slice(c, r.off, r.size);
    assert |s| == |t|;
    forall k | 0 <= k < |s| ensures s[k] == t[k] {
      assert s[k] == b[r.off + k] && t[k] == c[r.off + k];
    }
  }

  lemma {:induction false} SameText(b: bytes, c: bytes, r: Region, newPrefix: bytes)
    requires SameAt(b, c, r)
    ensures NewText(c, r, newPrefix) == NewText(b, r, newPrefix)
  {
    SameSlice(b, c, r);
  }

  lemma {:induction false} HoldsStill(b: bytes, c: bytes, r: Region, text: bytes)
    requires HoldsText(b, r, text) && SameAt(b, c, r)
    ensures HoldsText(c, r, text)
  {
    assert text <= c[r.off..] by {
      assert forall k | 0 <= k < |text| :: c[r.off..][k] == c[r.off + k] == b[r.off + k] == b[r.off..][k] == text[k];
    }
  }

  // A rewritten place holds its relocated text with at least one NUL, and nothing else changes.
  lemma {:induction false} PlaceFrame(b: bytes, r: Region, newPrefix: bytes, c: bytes)
    requires AfterPlace(b, r, newPrefix) == Ok(c)
    ensures SameOutside(b, c, r) && HoldsText(c, r, NewText(b, r, newPrefix))
  {
    WrittenHolds(b, r, NewText(b, r, newPrefix));
  }

  ghost predicate SlotsHold(b: bytes, c: bytes, r: Region, newPrefix: bytes, first: nat) {
    forall k: nat :: first <= k && (k + 1) * SLOT <= r.size ==>
      HoldsText(c, Slot(r, k), NewText(b, Slot(r, k), newPrefix))
  }

  lemma {:induction false} SlotsFrame(b: bytes, r: Region, newPrefix: bytes, k: nat, c: bytes)
    requires AfterSlots(b, r, newPrefix, k) == Ok(c)
    ensures SlotsHold(b, c, r, newPrefix, k) && SameOutside(b, c, r)
    ensures |c| == |b| && forall x :: 0 <= x < |b| && x < r.off + k * SLOT ==> c[x] == b[x]
    decreases r.size - k * SLOT
  {
    hide AfterPlace, HoldsText, NewText;
    if (k + 1) * SLOT <= r.size {
      var mid := AfterPlace(b, Slot(r, k), newPrefix).value;
      PlaceFrame(b, Slot(r, k), newPrefix, mid);
      SlotsFrame(mid, r, newPrefix, k + 1, c);
      HoldsStill(mid, c, Slot(r, k), NewText(b, Slot(r, k), newPrefix));
      forall j: nat | k + 1 <= j && (j + 1) * SLOT <= r.size
        ensures HoldsText(c, Slot(r, j), NewText(b, Slot(r, j), newPrefix)) {
        SameText(b, mid, Slot(r, j), newPrefix);
      }
    }
  }

  // Every slot of 4096 bytes that lies wholly in the section is rewritten from its own contents, and what is
  // behind the last one is left alone.
  lemma {:induction false} SlotsReadBack(b: bytes, r: Region, newPrefix: bytes, c: bytes, k: nat)
    requires AfterSlots(b, r, newPrefix, 0) == Ok(c)
    ensures var slot := Region(r.off + k * 4096, 4096);
      slot.off + slot.size <= r.off + r.size ==> HoldsText(c, slot, NewText(b, slot, newPrefix))
    ensures |c| == |b| && forall x :: 0 <= x < |b| && x >= r.off + r.size / 4096 * 4096 ==> c[x] == b[x]
  {
    hide HoldsText, NewText, AfterSlots;
    SlotsFrame(b, r, newPrefix, 0, c);
    RestStays(b, r, newPrefix, 0, c);
    assert Slot(r, k) == Region(r.off + k * 4096, 4096);
  }

  lemma {:induction false} RestStays(b: bytes, r: Region, newPrefix: bytes, k: nat, c: bytes)
    requires AfterSlots(b, r, newPrefix, k) == Ok(c)
    ensures |c| == |b| && forall x :: 0 <= x < |b| && x >= r.off + r.size / 4096 * 4096 ==> c[x] == b[x]
    decreases r.size - k * SLOT
  {
    hide AfterPlace, HoldsText, NewText;
    if (k + 1) * SLOT <= r.size {
      var mid := AfterPlace(b, Slot(r, k), newPrefix).value;
      PlaceFrame(b, Slot(r, k), newPrefix, mid);
      RestStays(mid, r, newPrefix, k + 1, c);
    }
  }

  // What is left behind in a rewritten section.
  ghost predicate Rewritten(b: bytes, c: bytes, section: Section, newPrefix: bytes) {
    match RoleOf(section)
    case LdSoCache => HoldsText(c, section.place, NewText(b, section.place, newPrefix))
    case GccPrefix => SlotsHold(b, c, section.place, newPrefix, 0)
    case _ => true
  }

  predicate IsRewritten(section: Section) {
    RoleOf(section) == LdSoCache || RoleOf(section) == GccPrefix
  }

  lemma {:induction false} SectionFrame(b: bytes, section: Section, newPrefix: bytes, c: bytes)
    requires AfterSection(b, section, newPrefix) == Ok(c)
    ensures |c| == |b| && Rewritten(b, c, section, newPrefix)
    ensures if IsRewritten(section) then SameOutside(b, c, section.place) else c == b
  {
    match RoleOf(section)
    case LdSoCache => PlaceFrame(b, section.place, newPrefix, c);
    case GccPrefix => SlotsFrame(b, section.place, newPrefix, 0, c);
    case _ =>
  }

  lemma {:induction false} StillRewritten(b: bytes, c: bytes, section: Section, newPrefix: bytes, b': bytes, c': bytes)
    requires Rewritten(b, c, section, newPrefix) && SameAt(b, b', section.place) && SameAt(c, c', section.place)
    ensures Rewritten(b', c', section, newPrefix)
  {
    match RoleOf(section)
    case LdSoCache =>
      SameText(b, b', section.place, newPrefix);
      HoldsStill(c, c', section.place, NewText(b, section.place, newPrefix));
    case GccPrefix =>
      forall k: nat | (k + 1) * SLOT <= section.place.size
        ensures HoldsText(c', Slot(section.place, k), NewText(b', Slot(section.place, k), newPrefix))
      {
        var slot := Slot(section.place, k);
        assert forall x :: Within(x, slot) ==> Within(x, section.place);
        SameText(b, b', slot, newPrefix);
        assert HoldsText(c, slot, NewText(b, slot, newPrefix));
        HoldsStill(c, c', slot, NewText(b, slot, newPrefix));
      }
    case _ =>
  }

  // ----- all sections -----

  lemma {:induction false} SameField(b: bytes, c: bytes, off: nat, n: nat, little: bool)
    requires off + n <= |b| && SameAt(b, c, Region(off, n))
    ensures Field(c, off, n, little) == Field(b, off, n, little)
  {
    assert c[off..off + n] == b[off..off + n];
  }

  // A section header that is left alone says the same.
  lemma {:induction false} SameHeader(b: bytes, c: bytes, elf: Elf, strtab: bytes, j: nat)
    requires SameAt(b, c, HeaderPlace(elf, j))
    ensures SectionAt(c, elf, strtab, j) == SectionAt(b, elf, strtab, j)
  {
    hide NameAt, Field;
    if HeaderFits(b, elf, j) {
      var at := HeaderPlace(elf, j).off;
      SameField(b, c, at, 4, elf.little);
      SameField(b, c, at + 4, 4, elf.little);
      if elf.wide {
        SameField(b, c, at + 24, 8, elf.little);
        SameField(b, c, at + 32, 8, elf.little);
      } else {
        SameField(b, c, at + 16, 4, elf.little);
        SameField(b, c, at + 20, 4, elf.little);
      }
    }
  }

  // Section `i` is one that is rewritten, in this place.
  predicate Rewrites(b: bytes, elf: Elf, strtab: bytes, i: nat, r: Region) {
    i < elf.shnum && SectionAt(b, elf, strtab, i).Ok? && SectionAt(b, elf, strtab, i).value.place == r
    && IsRewritten(SectionAt(b, elf, strtab, i).value)
  }

  // No section header lies in a place that is rewritten.
  ghost predicate HeadersSafe(b: bytes, elf: Elf, strtab: bytes) {
    forall i: nat, r, j: nat :: Rewrites(b, elf, strtab, i, r) && j < elf.shnum ==> Disjoint(r, HeaderPlace(elf, j))
  }

  ghost predicate Untouched(b: bytes, elf: Elf, strtab: bytes, from: nat, k: int) {
    forall i: nat, r :: from <= i && Rewrites(b, elf, strtab, i, r) ==> !Within(k, r)
  }

  lemma {:induction false} SafeStep(b: bytes, elf: Elf, strtab: bytes, newPrefix: bytes, i: nat, c: bytes)
    requires HeadersSafe(b, elf, strtab) && i < elf.shnum && SectionAt(b, elf, strtab, i).Ok?
    requires AfterSection(b, SectionAt(b, elf, strtab, i).value, newPrefix) == Ok(c)
    ensures |c| == |b| && forall j: nat :: j < elf.shnum ==>
      SectionAt(c, elf, strtab, j) == SectionAt(b, elf, strtab, j)
    ensures HeadersSafe(c, elf, strtab)
    ensures forall j: nat, r :: Rewrites(c, elf, strtab, j, r) <==> Rewrites(b, elf, strtab, j, r)
  {
    hide SectionAt, AfterSection, RoleOf, Rewritten;
    var section := SectionAt(b, elf, strtab, i).value;
    SectionFrame(b, section, newPrefix, c);
    forall j: nat | j < elf.shnum ensures SectionAt(c, elf, strtab, j) == SectionAt(b, elf, strtab, j) {
      if IsRewritten(section) {
        assert Rewrites(b, elf, strtab, i, section.place);
        assert Disjoint(section.place, HeaderPlace(elf, j));
      }
      assert SameAt(b, c, HeaderPlace(elf, j));
      SameHeader(b, c, elf, strtab, j);
    }
    forall j: nat, r ensures Rewrites(c, elf, strtab, j, r) <==> Rewrites(b, elf, strtab, j, r) {
      if j < elf.shnum {
        assert SectionAt(c, elf, strtab, j) == SectionAt(b, elf, strtab, j);
      }
    }
  }

  // With the headers out of the way, the loop over the sections keeps the length of the file and
  // every byte outside the places that it rewrites.
  lemma {:induction false} SectionsFrame(b: bytes, elf: Elf, strtab: bytes, newPrefix: bytes, i: nat, seen: Dirs)
    requires HeadersSafe(b, elf, strtab) && AfterSections(b, elf, strtab, newPrefix, i, seen).Ok?
    ensures var c := AfterSections(b, elf, strtab, newPrefix, i, seen).value.0;
      |c| == |b| && forall k :: 0 <= k < |b| && Untouched(b, elf, strtab, i, k) ==> c[k] == b[k]
    decreases elf.shnum - i
  {
    if i < elf.shnum {
      hide SectionAt, AfterSection, RoleOf, Rewritten, Remember;
      var section := SectionAt(b, elf, strtab, i).value;
      var mid := AfterSection(b, section, newPrefix).value;
      SectionFrame(b, section, newPrefix, mid);
      SafeStep(b, elf, strtab, newPrefix, i, mid);
      SectionsFrame(mid, elf, strtab, newPrefix, i + 1, Remember(b, section, seen));
      var c := AfterSections(b, elf, strtab, newPrefix, i, seen).value.0;
      forall k | 0 <= k < |b| && Untouched(b, elf, strtab, i, k) ensures c[k] == b[k] {
        assert Untouched(mid, elf, strtab, i + 1, k);
        assert IsRewritten(section) ==> Rewrites(b, elf, strtab, i, section.place);
        assert mid[k] == b[k];
      }
    }
  }

  // The place of section `t` is apart from all other places that are rewritten.
  ghost predicate Apart(b: bytes, elf: Elf, strtab: bytes, t: nat, r: Region) {
    forall i: nat, q :: i != t && Rewrites(b, elf, strtab, i, q) ==> Disjoint(q, r)
  }

  // A section that is apart from the others ends up rewritten from its own original contents.
  lemma {:induction false} SectionRewritten(b: bytes, elf: Elf, strtab: bytes, newPrefix: bytes, i: nat, seen: Dirs,
                                            t: nat)
    requires HeadersSafe(b, elf, strtab) && AfterSections(b, elf, strtab, newPrefix, i, seen).Ok?
    requires i <= t < elf.shnum && SectionAt(b, elf, strtab, t).Ok?
    requires Apart(b, elf, strtab, t, SectionAt(b, elf, strtab, t).value.place)
    ensures Rewritten(b, AfterSections(b, elf, strtab, newPrefix, i, seen).value.0, SectionAt(b, elf, strtab, t).value,
      newPrefix)
    decreases elf.shnum - i
  {
    hide SectionAt, AfterSection, RoleOf, Rewritten, Remember;
    var section := SectionAt(b, elf, strtab, i).value;
    var target := SectionAt(b, elf, strtab, t).value;
    var mid := AfterSection(b, section, newPrefix).value;
    SectionFrame(b, section, newPrefix, mid);
    SafeStep(b, elf, strtab, newPrefix, i, mid);
    var later := Remember(b, section, seen);
    var c := AfterSections(mid, elf, strtab, newPrefix, i + 1, later).value.0;
    if i == t {
      SectionsFrame(mid, elf, strtab, newPrefix, i + 1, later);
      forall k | 0 <= k < |mid| && Within(k, target.place) ensures c[k] == mid[k] {
        assert Untouched(mid, elf, strtab, i + 1, k);
      }
      StillRewritten(b, mid, section, newPrefix, b, c);
    } else {
      SectionRewritten(mid, elf, strtab, newPrefix, i + 1, later, t);
      assert IsRewritten(section) ==> Rewrites(b, elf, strtab, i, section.place);
      assert SameAt(mid, b, target.place);
      StillRewritten(mid, c, target, newPrefix, b, c);
    }
  }

  // ----- the library directories -----

  // Writing back `.sysdirs` and `.sysdirslen` changes nothing but the bytes written.
  lemma {:induction false} DirsFrame(b: bytes, elf: Elf, dirs: bytes, place: Region, lensOff: nat, newPrefix: bytes,
                                     c: bytes)
    requires AfterDirs(b, elf, Dirs(Some((dirs, place)), Some(lensOff)), newPrefix) == Ok(c)
    ensures var paths := Paths(dirs);
      var (written, lens) := (|PadTo(NewDirs(paths, newPrefix), place.size)|, |paths| * (if elf.wide then 8 else 4));
      && |c| == |b|
      && (forall k :: 0 <= k < |b| && !Within(k, Region(place.off, written)) && !Within(k, Region(lensOff, lens)) ==>
        c[k] == b[k])
      && (written == place.size <==> |NewDirs(paths, newPrefix)| <= place.size)
  {}

  // That write stays in its section exactly when the new paths fit; otherwise it runs over what
  // follows the section.
  lemma {:induction false} DirsThatDoNotFit(b: bytes, elf: Elf, dirs: bytes, place: Region, lensOff: nat,
                                            newPrefix: bytes, c: bytes)
    requires AfterDirs(b, elf, Dirs(Some((dirs, place)), Some(lensOff)), newPrefix) == Ok(c)
    requires Disjoint(Region(lensOff, |Paths(dirs)| * (if elf.wide then 8 else 4)),
      Region(place.off, |NewDirs(Paths(dirs), newPrefix)|))
    requires |NewDirs(Paths(dirs), newPrefix)| > place.size
    ensures var newDirs := NewDirs(Paths(dirs), newPrefix);
      forall k :: place.size <= k < |newDirs| ==> place.off + k < |c| && c[place.off + k] == newDirs[k]
  {
    var newDirs := NewDirs(Paths(dirs), newPrefix);
    var mid := Written(b, place.off, newDirs);
    forall k | place.size <= k < |newDirs| ensures place.off + k < |c| && c[place.off + k] == newDirs[k] {
      assert mid[place.off..place.off + |newDirs|][k] == newDirs[k];
      assert c[place.off + k] == mid[place.off + k];
    }
  }

  // When they fit and are apart, `.sysdirs` holds the new paths, each with a NUL behind it, and NULs up
  // to its end, and `.sysdirslen` holds their lengths.
  lemma {:induction false} DirsRewritten(b: bytes, elf: Elf, dirs: bytes, place: Region, lensOff: nat,
                                         newPrefix: bytes, c: bytes)
    requires AfterDirs(b, elf, Dirs(Some((dirs, place)), Some(lensOff)), newPrefix) == Ok(c)
    requires |NewDirs(Paths(dirs), newPrefix)| <= place.size
    requires Disjoint(Region(lensOff, |Paths(dirs)| * (if elf.wide then 8 else 4)), place)
    ensures place.off + place.size <= |c|
      && c[place.off..place.off + place.size] == Padded(NewDirs(Paths(dirs), newPrefix), place.size)
    ensures var lens := Lengths(Paths(dirs), newPrefix, if elf.wide then 8 else 4);
      lensOff + |lens| <= |c| && c[lensOff..lensOff + |lens|] == lens
  {
    hide NewDirs, Lengths, Paths, Written, Padded;
    var newDirs := Padded(NewDirs(Paths(dirs), newPrefix), place.size);
    FittingIsPadded(NewDirs(Paths(dirs), newPrefix), place.size);
    var mid := Written(b, place.off, newDirs);
    forall k | 0 <= k < place.size ensures c[place.off + k] == newDirs[k] {
      assert mid[place.off..place.off + place.size][k] == newDirs[k];
      assert c[place.off + k] == mid[place.off + k];
    }
  }

  lemma FittingIsPadded(text: bytes, size: nat)
    requires |text| <= size
    ensures PadTo(text, size) == Padded(text, size)
  {
    assert Zeros(0) == [];
  }

  function NewPaths(paths: seq<bytes>, newPrefix: bytes): seq<bytes> {
    if paths == [] then [] else [Relocated(paths[0], newPrefix)] + NewPaths(paths[1..], newPrefix)
  }

  predicate IsPath(path: bytes) {
    path != [] && forall i :: 0 <= i < |path| ==> path[i] != 0
  }

  // The section read again gives the relocated paths, as long as each of them is one.
  lemma {:induction false} DirsReadBack(paths: seq<bytes>, newPrefix: bytes, size: nat)
    requires |NewDirs(paths, newPrefix)| <= size && forall p :: p in NewPaths(paths, newPrefix) ==> IsPath(p)
    ensures Paths(Padded(NewDirs(paths, newPrefix), size)) == NewPaths(paths, newPrefix)
  {
    hide Relocated, Padded, IsPath;
    if paths == [] {
      NoPathsIn(size);
    } else {
      var path, more := Relocated(paths[0], newPrefix), NewDirs(paths[1..], newPrefix);
      assert path in NewPaths(paths, newPrefix) && IsPath(path);
      assert forall p :: p in NewPaths(paths[1..], newPrefix) ==> p in NewPaths(paths, newPrefix);
      DirsReadBack(paths[1..], newPrefix, size - |path| - 1);
      OnePathIn(path, more, size);
    }
  }

  lemma NoPathsIn(size: nat)
    ensures Paths(Padded([], size)) == []
  {}

  lemma {:induction false} OnePathIn(path: bytes, more: bytes, size: nat)
    requires IsPath(path) && |path + [0] + more| <= size
    ensures Paths(Padded(path + [0] + more, size)) == [path] + Paths(Padded(more, size - |path| - 1))
  {
    var dirs, rest := Padded(path + [0] + more, size), Padded(more, size - |path| - 1);
    assert size - |path + [0] + more| == size - |path| - 1 - |more|;
    assert dirs == path + ([0] + rest);
    FirstNulIs(path, rest);
    assert dirs[..|path|] == path && dirs[|path| + 1..] == rest;
  }

  lemma {:induction false} FirstNulIs(path: bytes, rest: bytes)
    requires forall i :: 0 <= i < |path| ==> path[i] != 0
    ensures Text.Find(path + ([0] + rest), 0) == |path|
  {
    var s := path + ([0] + rest);
    if path != [] {
      assert s[0] == path[0] && s[1..] == path[1..] + ([0] + rest);
      FirstNulIs(path[1..], rest);
    }
  }

  function Power(size: nat): nat {
    if size == 0 then 1 else 256 * Power(size - 1)
  }

  // A length that fits its word is read back from it.
  lemma {:induction false} PackReadBack(n: nat, size: nat)
    requires n < Power(size)
    ensures LittleEndian(Pack(n, size)) == n
  {
    if size > 0 {
      PackReadBack(n / 256, size - 1);
      assert Pack(n, size)[1..] == Pack(n / 256, size - 1);
    }
  }

  // The bytes written back for `.sysdirs` and `.sysdirslen`.
  predicate InDirs(elf: Elf, seen: Dirs, newPrefix: bytes, k: int) {
    match (seen.dirs, seen.lens)
    case (Some((dirs, place)), Some(lensOff)) =>
      var paths := Paths(dirs);
      || Within(k, Region(place.off, |PadTo(NewDirs(paths, newPrefix), place.size)|))
      || Within(k, Region(lensOff, |paths| * (if elf.wide then 8 else 4)))
    case _ => false
  }

  // All of `change_dl_sysdirs`: the length of the file and every byte outside the rewritten places
  // are kept.
  lemma {:induction false} SysdirsFrame(b: bytes, elf: Elf, newPrefix: bytes, strtab: bytes, c: bytes)
    requires StringTable(b, elf) == Ok(strtab) && HeadersSafe(b, elf, strtab)
      && AfterSysdirs(b, elf, newPrefix) == Ok(c)
    ensures AfterSections(b, elf, strtab, newPrefix, 0, Dirs(None, None)).Ok?
    ensures var seen := AfterSections(b, elf, strtab, newPrefix, 0, Dirs(None, None)).value.1;
      |c| == |b| && forall k :: 0 <= k < |b| && Untouched(b, elf, strtab, 0, k) && !InDirs(elf, seen, newPrefix, k) ==>
        c[k] == b[k]
  {
    hide HeadersSafe, SectionAt, StringTable;
    var r := AfterSections(b, elf, strtab, newPrefix, 0, Dirs(None, None));
    SectionsFrame(b, elf, strtab, newPrefix, 0, Dirs(None, None));
    var (mid, seen) := r.value;
    if seen.dirs.Some? && seen.lens.Some? {
      DirsFrame(mid, elf, seen.dirs.value.0, seen.dirs.value.1, seen.lens.value, newPrefix, c);
    }
  }

  // ----- one file -----

  // `change_interpreter` and then `change_dl_sysdirs`, also after a path that does not fit
  function AfterBoth(b: bytes, elf: Elf, newPath: bytes, newPrefix: bytes): Result<(bytes, bool), Failure> {
    match AfterInterp(b, elf, newPath)
    case Err(e) => Err(e)
    case Ok(changed) =>
      match AfterSysdirs(if changed.Some? then changed.value else b, elf, newPrefix)
      case Err(e) => Err(e)
      case Ok(c) => Ok((c, changed.Some?))
  }

  // The interpreter is apart from the section headers and from the section names.
  ghost predicate InterpApart(b: bytes, elf: Elf, r: Region) {
    && (forall j: nat :: j < elf.shnum || j == elf.shstrndx ==> Disjoint(r, HeaderPlace(elf, j)))
    && (SectionAt(b, elf, [], elf.shstrndx).Ok? ==> Disjoint(r, SectionAt(b, elf, [], elf.shstrndx).value.place))
  }

  // What the rewritten interpreter leaves of the sections.
  lemma {:induction false} SectionsStay(b: bytes, elf: Elf, r: Region, strtab: bytes, mid: bytes)
    requires SameOutside(b, mid, r) && InterpApart(b, elf, r) && StringTable(b, elf) == Ok(strtab)
      && HeadersSafe(b, elf, strtab)
    ensures StringTable(mid, elf) == Ok(strtab) && HeadersSafe(mid, elf, strtab)
    ensures forall j: nat, q :: Rewrites(mid, elf, strtab, j, q) <==> Rewrites(b, elf, strtab, j, q)
  {
    hide SectionAt, Slice;
    SameHeader(b, mid, elf, [], elf.shstrndx);
    var table := SectionAt(b, elf, [], elf.shstrndx).value;
    SameSlice(b, mid, table.place);
    forall j: nat | j < elf.shnum ensures SectionAt(mid, elf, strtab, j) == SectionAt(b, elf, strtab, j) {
      assert Disjoint(r, HeaderPlace(elf, j));
      SameHeader(b, mid, elf, strtab, j);
    }
    forall j: nat, q ensures Rewrites(mid, elf, strtab, j, q) <==> Rewrites(b, elf, strtab, j, q) {
      if j < elf.shnum {
        assert SectionAt(mid, elf, strtab, j) == SectionAt(b, elf, strtab, j);
      }
    }
  }

  // Relocating a file: its length and every byte outside the interpreter and the rewritten sections are
  // kept, and an interpreter that was rewritten, and that is apart from those sections, still holds the
  // new path in the end.
  lemma {:induction false} RelocationFrame(b: bytes, elf: Elf, newPath: bytes, newPrefix: bytes, strtab: bytes,
                                           r: Region, mid: bytes, c: bytes)
    requires FindInterp(b, elf, 0) == Ok(Some(r)) && AfterInterp(b, elf, newPath) == Ok(Some(mid)) && mid != b
    requires AfterBoth(b, elf, newPath, newPrefix) == Ok((c, true))
    requires InterpApart(b, elf, r) && StringTable(b, elf) == Ok(strtab) && HeadersSafe(b, elf, strtab)
    ensures AfterSections(mid, elf, strtab, newPrefix, 0, Dirs(None, None)).Ok?
    ensures var seen := AfterSections(mid, elf, strtab, newPrefix, 0, Dirs(None, None)).value.1;
      && |c| == |b|
      && (forall k ::
            0 <= k < |b| && !Within(k, r) && Untouched(b, elf, strtab, 0, k) && !InDirs(elf, seen, newPrefix, k) ==>
              c[k] == b[k])
      && ((forall k :: Within(k, r) ==> Untouched(b, elf, strtab, 0, k) && !InDirs(elf, seen, newPrefix, k)) ==>
        HoldsText(c, r, newPath))
  {
    hide FindInterp, AfterInterp, AfterSections, InDirs, HeadersSafe, StringTable, AfterSysdirs, Rewrites;
    InterpFrame(b, elf, newPath, mid);
    SectionsStay(b, elf, r, strtab, mid);
    SysdirsFrame(mid, elf, newPrefix, strtab, c);
    assert forall k :: Untouched(b, elf, strtab, 0, k) ==> Untouched(mid, elf, strtab, 0, k);
    var seen := AfterSections(mid, elf, strtab, newPrefix, 0, Dirs(None, None)).value.1;
    if forall k :: Within(k, r) ==> Untouched(b, elf, strtab, 0, k) && !InDirs(elf, seen, newPrefix, k) {
      assert SameAt(mid, c, r);
      HoldsStill(mid, c, r, newPath);
    }
  }

  // ----- the program -----

  class ElfFile {
    const data: array<byte>
    var pos: nat

    constructor (data: array<byte>)
      ensures this.data == data && pos == 0
    {
      this.data, pos := data, 0;
    }

    method Seek(off: nat)
      modifies this`pos
      ensures pos == off
    {
      pos := off;
    }

    // read(n): as far as the file goes
    method Read(n: nat) returns (s: bytes)
      modifies this`pos
      ensures s == Slice(data[..], old(pos), n) && pos == old(pos) + |s|
    {
      ghost var b := data[..];
      if pos >= data.Length {
        s := [];
      } else if pos + n <= data.Length {
        s := data[pos..pos + n];
        assert s == b[pos..pos + n];
      } else {
        s := data[pos..];
        assert s == b[pos..];
      }
      pos := pos + |s|;
    }

    // write(text), when it does not make the file longer
    method Write(text: bytes) returns (ok: bool)
      modifies data, this`pos
      ensures ok <==> old(pos) + |text| <= data.Length
      ensures if ok then data[..] == Written(old(data[..]), old(pos), text) && pos == old(pos) + |text|
              else data[..] == old(data[..]) && pos == old(pos)
    {
      hide Written;
      if pos + |text| > data.Length {
        return false;
      }
      for i := 0 to |text|
        invariant pos == old(pos) && forall k :: 0 <= k < data.Length ==>
          data[k] == if pos <= k < pos + i then text[k - pos] else old(data[k])
      {
        data[pos + i] := text[i];
      }
      IsWritten(old(data[..]), pos, text, data[..]);
      pos := pos + |text|;
      return true;
    }

    // `change_interpreter`
    method ChangeInterpreter(elf: Elf, newPath: bytes) returns (r: Result<bool, Failure>)
      modifies data, this`pos
      ensures match AfterInterp(old(data[..]), elf, newPath)
        case Err(e) => r == Err(e)
        case Ok(None) => r == Ok(false) && data[..] == old(data[..])
        case Ok(Some(c)) => r == Ok(true) && data[..] == c
    {
      ghost var b := data[..];
      var i := 0;
      while i < elf.phnum
        invariant data[..] == b && FindInterp(b, elf, i) == FindInterp(b, elf, 0)
      {
        var ph := ReadProgramHeader(elf, i);
        if ph.Err? {
          return Err(ph.error);
        }
        if ph.value.kind == PT_INTERP {
          r := SetInterpreter(Region(ph.value.off, ph.value.filesz), newPath);
          return;
        }
        i := i + 1;
      }
      return Ok(true);
    }

    method ReadProgramHeader(elf: Elf, i: nat) returns (r: Result<ProgramHeader, Failure>)
      modifies this`pos
      ensures data[..] == old(data[..]) && r == ProgramHeaderAt(data[..], elf, i)
    {
      ghost var b := data[..];
      var at := elf.phoff + i * elf.phentsize;
      Seek(at);
      var hdr := Read(elf.phentsize);
      if elf.phentsize != (if elf.wide then 56 else 32) || |hdr| != elf.phentsize {
        return Err(StructError);
      }
      FieldInside(b, at, elf.phentsize, 0, 4, elf.little);
      if elf.wide {
        FieldInside(b, at, elf.phentsize, 8, 8, elf.little);
        FieldInside(b, at, elf.phentsize, 32, 8, elf.little);
        return Ok(ProgramHeader(Field(hdr, 0, 4, elf.little), Field(hdr, 8, 8, elf.little),
          Field(hdr, 32, 8, elf.little)));
      }
      FieldInside(b, at, elf.phentsize, 4, 4, elf.little);
      FieldInside(b, at, elf.phentsize, 16, 4, elf.little);
      return Ok(ProgramHeader(Field(hdr, 0, 4, elf.little), Field(hdr, 4, 4, elf.little),
        Field(hdr, 16, 4, elf.little)));
    }

    method SetInterpreter(place: Region, newPath: bytes) returns (r: Result<bool, Failure>)
      modifies data, this`pos
      ensures match InterpChange(old(data[..]), place, newPath)
        case Err(e) => r == Err(e)
        case Ok(None) => r == Ok(false) && data[..] == old(data[..])
        case Ok(Some(c)) => r == Ok(true) && data[..] == c
    {
      Seek(place.off);
      var fname := Read(11);
      if IsForeign(fname) || place.size == 0 {
        return Ok(true);
      }
      if |newPath| >= place.size {
        return Ok(false);
      }
      var dlPath := newPath + Zeros(place.size - |newPath|);
      Seek(place.off);
      var ok := Write(dlPath);
      return if ok then Ok(true) else Err(Grows);
    }

    // `.ldsocache`, or one slot of `.gccrelocprefix`; the file stands at the place already.
    method RewritePlace(place: Region, newPrefix: bytes) returns (failure: Option<Failure>)
      requires pos == place.off
      modifies data, this`pos
      ensures match AfterPlace(old(data[..]), place, newPrefix)
        case Err(e) => failure == Some(e)
        case Ok(c) => failure == None && data[..] == c && pos == place.off + place.size
    {
      var text := Read(place.size);
      var newText := RStrip(Relocated(text, newPrefix));
      if |newText| >= place.size {
        return Some(TooLong);
      }
      Seek(place.off);
      var ok := Write(newText + Zeros(place.size - |newText|));
      return if ok then None else Some(Grows);
    }

    // The loop over the slots of `.gccrelocprefix`; each read goes on where the last write ended.
    method RewriteSlots(place: Region, newPrefix: bytes) returns (failure: Option<Failure>)
      requires pos == place.off
      modifies data, this`pos
      ensures match AfterSlots(old(data[..]), place, newPrefix, 0)
        case Err(e) => failure == Some(e)
        case Ok(c) => failure == None && data[..] == c
    {
      hide AfterPlace;
      var k: nat := 0;
      while (k + 1) * SLOT <= place.size
        invariant pos == place.off + k * SLOT
        invariant AfterSlots(data[..], place, newPrefix, k) == AfterSlots(old(data[..]), place, newPrefix, 0)
        decreases place.size - k * SLOT
      {
        failure := RewritePlace(Slot(place, k), newPrefix);
        if failure.Some? {
          return;
        }
        k := k + 1;
      }
      return None;
    }

    method ReadSection(elf: Elf, strtab: bytes, i: nat) returns (r: Result<Section, Failure>)
      modifies this`pos
      ensures data[..] == old(data[..]) && r == SectionAt(data[..], elf, strtab, i)
    {
      hide Field, NameAt;
      ghost var b := data[..];
      var at := elf.shoff + i * elf.shentsize;
      Seek(at);
      var hdr := Read(elf.shentsize);
      if elf.shentsize != (if elf.wide then 64 else 40) || |hdr| != elf.shentsize {
        return Err(StructError);
      }
      FieldInside(b, at, elf.shentsize, 0, 4, elf.little);
      FieldInside(b, at, elf.shentsize, 4, 4, elf.little);
      var name, kind := NameAt(strtab, Field(hdr, 0, 4, elf.little)), Field(hdr, 4, 4, elf.little);
      if elf.wide {
        FieldInside(b, at, elf.shentsize, 24, 8, elf.little);
        FieldInside(b, at, elf.shentsize, 32, 8, elf.little);
        return Ok(Section(name, kind, Region(Field(hdr, 24, 8, elf.little), Field(hdr, 32, 8, elf.little))));
      }
      FieldInside(b, at, elf.shentsize, 16, 4, elf.little);
      FieldInside(b, at, elf.shentsize, 20, 4, elf.little);
      return Ok(Section(name, kind, Region(Field(hdr, 16, 4, elf.little), Field(hdr, 20, 4, elf.little))));
    }

    // The loop over the sections in `change_dl_sysdirs`
    method ChangeSections(elf: Elf, strtab: bytes, newPrefix: bytes) returns (r: Result<Dirs, Failure>)
      modifies data, this`pos
      ensures match AfterSections(old(data[..]), elf, strtab, newPrefix, 0, Dirs(None, None))
        case Err(e) => r == Err(e)
        case Ok((c, seen)) => r == Ok(seen) && data[..] == c
    {
      hide SectionAt, AfterSection, Remember;
      var seen := Dirs(None, None);
      var i := 0;
      while i < elf.shnum
        invariant AfterSections(data[..], elf, strtab, newPrefix, i, seen)
               == AfterSections(old(data[..]), elf, strtab, newPrefix, 0, Dirs(None, None))
      {
        var section := ReadSection(elf, strtab, i);
        if section.Err? {
          return Err(section.error);
        }
        var failure, now := ChangeSection(section.value, newPrefix, seen);
        if failure.Some? {
          return Err(failure.value);
        }
        seen := now;
        i := i + 1;
      }
      return Ok(seen);
    }

    method ChangeSection(section: Section, newPrefix: bytes, seen: Dirs) returns (failure: Option<Failure>, now: Dirs)
      modifies data, this`pos
      ensures now == Remember(old(data[..]), section, seen)
      ensures match AfterSection(old(data[..]), section, newPrefix)
        case Err(e) => failure == Some(e)
        case Ok(c) => failure == None && data[..] == c
    {
      hide AfterPlace, AfterSlots;
      failure, now := None, seen;
      if section.kind == SHT_PROGBITS {
        Seek(section.place.off);
        if section.name == Bytes(".sysdirs") {
          var dirs := Read(section.place.size);
          now := seen.(dirs := Some((dirs, section.place)));
        } else if section.name == Bytes(".sysdirslen") {
          now := seen.(lens := Some(section.place.off));
        } else if section.name == Bytes(".ldsocache") {
          failure := RewritePlace(section.place, newPrefix);
        } else if section.name == Bytes(".gccrelocprefix") {
          failure := RewriteSlots(section.place, newPrefix);
        }
      }
    }

    // `change_dl_sysdirs`
    method ChangeDlSysdirs(elf: Elf, newPrefix: bytes) returns (failure: Option<Failure>)
      modifies data, this`pos
      ensures match AfterSysdirs(old(data[..]), elf, newPrefix)
        case Err(e) => failure == Some(e)
        case Ok(c) => failure == None && data[..] == c
    {
      hide SectionAt, AfterSections, Paths, NewDirs;
      var table := ReadSection(elf, [], elf.shstrndx);
      if table.Err? {
        return Some(table.error);
      }
      Seek(table.value.place.off);
      var strtab := Read(table.value.place.size);
      var seen := ChangeSections(elf, strtab, newPrefix);
      if seen.Err? {
        return Some(seen.error);
      }
      if seen.value.dirs.None? {
        return None;
      }
      if seen.value.lens.None? {
        return Some(NoLengths);
      }
      var (dirs, place) := seen.value.dirs.value;
      failure := WriteDirs(elf, dirs, place, seen.value.lens.value, newPrefix);
    }

    // What is done to one file.
    method Relocate(elf: Elf, newPath: bytes, newPrefix: bytes) returns (r: Result<bool, Failure>)
      modifies data, this`pos
      ensures match AfterBoth(old(data[..]), elf, newPath, newPrefix)
        case Err(e) => r == Err(e)
        case Ok((c, fits)) => r == Ok(fits) && data[..] == c
    {
      r := ChangeInterpreter(elf, newPath);
      if r.Ok? {
        var failure := ChangeDlSysdirs(elf, newPrefix);
        if failure.Some? {
          r := Err(failure.value);
        }
      }
    }

    // The end of it: the paths one by one, with their lengths.
    method WriteDirs(elf: Elf, dirs: bytes, place: Region, lensOff: nat, newPrefix: bytes)
        returns (failure: Option<Failure>)
      modifies data, this`pos
      ensures match AfterDirs(old(data[..]), elf, Dirs(Some((dirs, place)), Some(lensOff)), newPrefix)
        case Err(e) => failure == Some(e)
        case Ok(c) => failure == None && data[..] == c
    {
      hide NewDirs, Lengths, Paths;
      var paths := Paths(dirs);
      var newDirs, newLens := JoinDirs(paths, newPrefix, if elf.wide then 8 else 4);
      if |newDirs| < place.size {
        newDirs := newDirs + Zeros(place.size - |newDirs|);
      }
      if place.off + |newDirs| > data.Length || lensOff + |newLens| > data.Length {
        return Some(Grows);
      }
      Seek(place.off);
      var ok := Write(newDirs);
      Seek(lensOff);
      ok := Write(newLens);
      return None;
    }
  }

  method JoinDirs(paths: seq<bytes>, newPrefix: bytes, size: nat) returns (dirs: bytes, lens: bytes)
    ensures dirs == NewDirs(paths, newPrefix) && lens == Lengths(paths, newPrefix, size)
  {
    dirs, lens := [], [];
    for i := 0 to |paths|
      invariant dirs + NewDirs(paths[i..], newPrefix) == NewDirs(paths, newPrefix)
      invariant lens + Lengths(paths[i..], newPrefix, size) == Lengths(paths, newPrefix, size)
    {
      ghost var rest := paths[i..];
      assert rest[0] == paths[i] && rest[1..] == paths[i + 1..];
      var newPath := Relocated(paths[i], newPrefix);
      assert dirs + (newPath + [0] + NewDirs(paths[i + 1..], newPrefix)) == (dirs + newPath + [0])
        + NewDirs(paths[i + 1..], newPrefix);
      assert lens + (Pack(|newPath|, size) + Lengths(paths[i + 1..], newPrefix, size)) ==
        (lens + Pack(|newPath|, size)) + Lengths(paths[i + 1..], newPrefix, size);
      dirs := dirs + newPath + [0];
      lens := lens + Pack(|newPath|, size);
    }
    assert paths[|paths|..] == [];
  }

  // A field of a header that has been read.
  lemma {:induction false} FieldInside(b: bytes, at: nat, size: nat, off: nat, n: nat, little: bool)
    requires off + n <= size && |Slice(b, at, size)| == size && size > 0
    ensures at + size <= |b| && Field(Slice(b, at, size), off, n, little) == Field(b, at + off, n, little)
  {
    assert Slice(b, at, size)[off..off + n] == b[at + off..at + off + n];
  }
}

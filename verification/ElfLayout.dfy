/** The two header structures of an executable, field after field as they are declared,
    and that the loader reads the fields it means to. */
module ElfLayout {
  import opened Bytes
  import opened Loader

  /** A field of a structure: its value and its width in bytes. */
  datatype StructField = StructField(value: nat, width: nat)

  /** The fields stand one after the other from `a` on, without padding. */
  ghost predicate FieldsAt(file: seq<byte>, a: nat, fields: seq<StructField>)
    decreases |fields|
  {
    fields != [] ==>
      && a + fields[0].width <= |file| && Load(file, a, fields[0].width) == fields[0].value
      && FieldsAt(file, a + fields[0].width, fields[1..])
  }

  /** How far the `i`th field is from the first. */
  function Offset(fields: seq<StructField>, i: nat): nat
    requires i <= |fields|
  {
    if i == 0 then 0 else Offset(fields, i - 1) + fields[i - 1].width
  }

  lemma {:induction false} OffsetTail(fields: seq<StructField>, i: nat)
    requires 0 < i <= |fields|
    ensures Offset(fields, i) == fields[0].width + Offset(fields[1..], i - 1)
    decreases i
  {
    if i > 1 { OffsetTail(fields, i - 1); }
  }

  lemma {:induction false} FieldAt(file: seq<byte>, a: nat, fields: seq<StructField>, i: nat)
    requires FieldsAt(file, a, fields) && i < |fields|
    ensures a + Offset(fields, i) + fields[i].width <= |file|
    ensures Load(file, a + Offset(fields, i), fields[i].width) == fields[i].value
    decreases |fields|
  {
    if i > 0 {
      OffsetTail(fields, i);
      FieldAt(file, a + fields[0].width, fields[1..], i - 1);
    }
  }

  /** `elf_header` */
  datatype Header = Header(magic: nat, ident: nat, kind: nat, machine: nat, version: nat, entry: nat, phoff: nat,
                           shoff: nat, flags: nat, ehsize: nat, phentsize: nat, phnum: nat)

  /** Its fields as they are declared, up to the last that the loader reads. */
  function HeaderFields(h: Header): seq<StructField> {
    [StructField(h.magic, 4), StructField(h.ident, 12), StructField(h.kind, 2), StructField(h.machine, 2),
     StructField(h.version, 4), StructField(h.entry, 8), StructField(h.phoff, 8), StructField(h.shoff, 8),
     StructField(h.flags, 4), StructField(h.ehsize, 2), StructField(h.phentsize, 2), StructField(h.phnum, 2)]
  }

  /** `elf_program`, with the two fields that the loader does not read. */
  function ProgramFields(ph: Segment, pa: nat, align: nat): seq<StructField> {
    [StructField(ph.kind, 4), StructField(ph.flags, 4), StructField(ph.offset, 8), StructField(ph.va, 8),
     StructField(pa, 8), StructField(ph.filesz, 8), StructField(ph.memsz, 8), StructField(align, 8)]
  }

  lemma {:induction false} HeaderOffsets(h: Header)
    ensures var f := HeaderFields(h);
      && Offset(f, 0) == 0 && Offset(f, 5) == 0x18 && Offset(f, 6) == 0x20 && Offset(f, 11) == 0x38
  {
    var f := HeaderFields(h);
    assert Offset(f, 1) == 4 && Offset(f, 2) == 16 && Offset(f, 3) == 18 && Offset(f, 4) == 20;
    assert Offset(f, 7) == 40 && Offset(f, 8) == 48 && Offset(f, 9) == 52 && Offset(f, 10) == 54;
  }

  lemma {:induction false} ProgramOffsets(ph: Segment, pa: nat, align: nat)
    ensures var f := ProgramFields(ph, pa, align);
      && Offset(f, 0) == 0 && Offset(f, 1) == 4 && Offset(f, 2) == 8 && Offset(f, 3) == 0x10
      && Offset(f, 5) == 0x20 && Offset(f, 6) == 0x28 && Offset(f, 8) == 56
  {
    var f := ProgramFields(ph, pa, align);
    assert Offset(f, 1) == 4 && Offset(f, 2) == 8 && Offset(f, 3) == 0x10 && Offset(f, 4) == 0x18;
    assert Offset(f, 5) == 0x20 && Offset(f, 6) == 0x28 && Offset(f, 7) == 0x30;
  }

  /** The header at the start of a file is read as what it is. */
  lemma {:induction false} HeaderRead(file: seq<byte>, h: Header)
    requires 64 <= |file| && FieldsAt(file, 0, HeaderFields(h))
    ensures Magic(file) == h.magic && EntryPoint(file) == h.entry && PhOff(file) == h.phoff && PhNum(file) == h.phnum
  {
    HeaderOffsets(h);
    FieldAt(file, 0, HeaderFields(h), 0);
    FieldAt(file, 0, HeaderFields(h), 5);
    FieldAt(file, 0, HeaderFields(h), 6);
    FieldAt(file, 0, HeaderFields(h), 11);
  }

  /** The `i`th program header, 56 bytes each from e_phoff on, is read as what it is. */
  lemma {:induction false} ProgramRead(file: seq<byte>, i: nat, ph: Segment, pa: nat, align: nat)
    requires HeadersFit(file) && i < PhNum(file) && FieldsAt(file, PhOff(file) + 56 * i, ProgramFields(ph, pa, align))
    ensures HeaderAt(file, i) == ph
  {
    var a, f := PhOff(file) + 56 * i, ProgramFields(ph, pa, align);
    ProgramOffsets(ph, pa, align);
    FieldAt(file, a, f, 0);
    FieldAt(file, a, f, 1);
    FieldAt(file, a, f, 2);
    FieldAt(file, a, f, 3);
    FieldAt(file, a, f, 5);
    FieldAt(file, a, f, 6);
  }

  /** A segment is loaded if its type is 1, and writable if the second of its flag bits is set:
      r and r-x are not, rw- and rwx are. */
  lemma {:induction false} FlagBits(ph: Segment)
    ensures Loadable(ph) <==> ph.kind == 1
    ensures ph.flags == 4 || ph.flags == 5 ==> !Writable(ph)
    ensures ph.flags == 6 || ph.flags == 7 ==> Writable(ph)
  {
  }
}

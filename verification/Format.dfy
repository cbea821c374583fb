/** The minimised unikernel file: what the aligner writes and the monitor reads. */
module Format {
  import opened Common
  import opened Bytes
  import Utf8

  /** A section as the ELF file holds it, and as the loader keeps it. */
  datatype Section = Section(name: string, vma: nat, size: nat, bytes: seq<byte>)

  /** What is written for a list of sections: nothing at all when none has a non-zero byte. */
  datatype Output = NoFile | Overflow | File(content: seq<byte>)

  predicate AllZero(b: seq<byte>) {
    forall i :: 0 <= i < |b| ==> b[i] == 0
  }

  // ---------- Printing ----------

  function Record(s: Section): seq<byte> {
    LittleEndian(|s.name|, 2) + (Utf8.Encode(s.name) + (LittleEndian(s.size, 8) + (LittleEndian(s.vma, 8) + s.bytes)))
  }

  function Records(ss: seq<Section>): seq<byte> {
    if ss == [] then [] else Record(ss[0]) + Records(ss[1..])
  }

  function Kept(ss: seq<Section>): seq<Section> {
    if ss == [] then [] else (if AllZero(ss[0].bytes) then [] else [ss[0]]) + Kept(ss[1..])
  }

  /** The numbers of a section fit their fields. */
  predicate Fits(s: Section) {
    |s.name| < 0x1_0000 && s.size < TWO_64 && s.vma < TWO_64
  }

  function Print(ss: seq<Section>): Output {
    var kept := Kept(ss);
    if !AllFit(kept) then Overflow
    else if kept == [] then NoFile
    else if |kept| > 255 then Overflow
    else File(LittleEndian(|kept|, 1) + Records(kept))
  }

  /**
    Extends the buffer by one section; a section of zeros only is left out, a number too big for its field ends the
    run.
   */
  method Extract(s: Section, b: seq<byte>) returns (r: seq<byte>, written: bool, overflow: bool)
    ensures AllZero(s.bytes) ==> r == b && !written && !overflow
    ensures !AllZero(s.bytes) ==> overflow == !Fits(s) && written == Fits(s) && (written ==> r == b + Record(s))
  {
    if AllZero(s.bytes) {
      return b, false, false;
    }
    if !Fits(s) {
      return b, false, true;
    }
    r := b + LittleEndian(|s.name|, 2);
    r := r + Utf8.Encode(s.name);
    r := r + LittleEndian(s.size, 8);
    r := r + LittleEndian(s.vma, 8);
    r := r + s.bytes;
    assert r == b + Record(s);
    written, overflow := true, false;
  }

  predicate AllFit(ss: seq<Section>) {
    forall i :: 0 <= i < |ss| ==> Fits(ss[i])
  }

  /** The writer: one buffer extended section by section. */
  method ProcessFileAslr(ss: seq<Section>) returns (r: Output)
    ensures r == Print(ss)
  {
    hide Record, Fits, Records, Kept;
    var b, count := [], 0;
    assert Kept([]) == [] && Records([]) == [] by { KeptNothing(); }
    for i := 0 to |ss|
      invariant count == |Kept(ss[..i])| && b == Records(Kept(ss[..i])) && AllFit(Kept(ss[..i]))
    {
      var written, overflow;
      b, written, overflow := Extract(ss[i], b);
      KeptSnoc(ss[..i], ss[i]);
      assert ss[..i + 1] == ss[..i] + [ss[i]] && ss == ss[..i + 1] + ss[i + 1..];
      if overflow {
        KeptConcat(ss[..i + 1], ss[i + 1..]);
        assert Kept(ss)[|Kept(ss[..i])|] == ss[i];
        return Overflow;
      }
      if written {
        RecordsSnoc(Kept(ss[..i]), ss[i]);
        count := count + 1;
      }
    }
    assert ss[..|ss|] == ss;
    if count == 0 {
      return NoFile;
    }
    if count > 255 {
      return Overflow;
    }
    r := File(LittleEndian(count, 1) + b);
  }

  lemma KeptNothing()
    ensures Kept([]) == [] && Records([]) == []
  {
  }

  lemma {:induction false} KeptConcat(a: seq<Section>, b: seq<Section>)
    ensures Kept(a + b) == Kept(a) + Kept(b)
  {
    if a == [] {
      assert a + b == b;
    } else {
      KeptConcat(a[1..], b);
      var head := if AllZero(a[0].bytes) then [] else [a[0]];
      assert (a + b)[1..] == a[1..] + b && (a + b)[0] == a[0];
      assert Kept(a + b) == head + (Kept(a[1..]) + Kept(b)) == head + Kept(a[1..]) + Kept(b);
    }
  }

  lemma KeptSnoc(ss: seq<Section>, s: Section)
    ensures Kept(ss + [s]) == if AllZero(s.bytes) then Kept(ss) else Kept(ss) + [s]
  {
    KeptConcat(ss, [s]);
    assert [s][1..] == [];
  }

  lemma {:induction false} RecordsSnoc(ss: seq<Section>, s: Section)
    ensures Records(ss + [s]) == Records(ss) + Record(s)
  {
    hide Record;
    if ss == [] {
      assert [s][1..] == [];
      assert Records([s]) == Record(s) + Records([]);
    } else {
      RecordsSnoc(ss[1..], s);
      assert (ss + [s])[1..] == ss[1..] + [s];
    }
  }

  // ---------- Parsing ----------

  function Slice(b: seq<byte>, from: nat, len: nat): Option<seq<byte>> {
    if from + len <= |b| then Some(b[from..from + len]) else None
  }

  function Number(b: seq<byte>, at: nat, w: nat): Option<nat> {
    var f := Slice(b, at, w);
    if f.None? then None else Some(FromLittleEndian(f.value))
  }

  function Name(b: seq<byte>, at: nat, n: nat): Option<string> {
    var f := Slice(b, at, n);
    if f.None? then None else Utf8.Decode(f.value)
  }

  /** What follows the name. */
  function ParseBody(b: seq<byte>, at: nat, name: string): Option<(Section, nat)> {
    var size, vma := Number(b, at, 8), Number(b, at + 8, 8);
    if size.None? || vma.None? then None
    else
      var data := Slice(b, at + 16, size.value);
      if data.None? then None else Some((Section(name, vma.value, size.value, data.value), at + 16 + size.value))
  }

  /** One section from a position on, with the position after it; none where the reader panics. */
  function ParseOne(b: seq<byte>, at: nat): Option<(Section, nat)> {
    var n := Number(b, at, 2);
    if n.None? then None
    else
      var name := Name(b, at + 2, n.value);
      if name.None? then None else ParseBody(b, at + 2 + n.value, name.value)
  }

  function ParseMany(b: seq<byte>, n: nat, at: nat): Option<(seq<Section>, nat)> {
    if n == 0 then Some(([], at))
    else
      var one := ParseOne(b, at);
      if one.None? then None
      else
        var rest := ParseMany(b, n - 1, one.value.1);
        if rest.None? then None else Some(([one.value.0] + rest.value.0, rest.value.1))
  }

  /** The sections of a file and the number of bytes read. */
  function Parse(b: seq<byte>): Option<(seq<Section>, nat)> {
    if b == [] then None else ParseMany(b, b[0] as nat, 1)
  }

  /** The whole result when `done` sections precede those still to be parsed. */
  ghost function Ahead(done: seq<Section>, rest: Option<(seq<Section>, nat)>): Option<(seq<Section>, nat)> {
    if rest.None? then None else Some((done + rest.value.0, rest.value.1))
  }

  lemma AheadNone(r: Option<(seq<Section>, nat)>)
    ensures Ahead([], r) == r
  {
    if r.Some? {
      assert [] + r.value.0 == r.value.0;
    }
  }

  lemma AheadOne(b: seq<byte>, done: seq<Section>, n: nat, at: nat)
    requires n > 0 && ParseOne(b, at).Some?
    ensures
      var one := ParseOne(b, at).value;
      Ahead(done, ParseMany(b, n, at)) == Ahead(done + [one.0], ParseMany(b, n - 1, one.1))
  {
    var one := ParseOne(b, at).value;
    var rest := ParseMany(b, n - 1, one.1);
    if rest.Some? {
      assert done + ([one.0] + rest.value.0) == done + [one.0] + rest.value.0;
    }
  }

  /** The reader: a cursor over the buffer. */
  class BinaryLoader {
    var sections: seq<Section>
    var buff: seq<byte>

    constructor ()
      ensures sections == [] && buff == []
    {
      sections, buff := [], [];
    }

    /** A missing file is accepted only for the minimal variant; a panic is a false result. */
    method ReadUkFile(minimal: bool, file: Option<seq<byte>>) returns (ok: bool)
      modifies this
      ensures file.None? ==> ok == minimal && sections == old(sections) && buff == old(buff)
      ensures file.Some? ==> buff == file.value && ok == Parse(buff).Some?
      ensures file.Some? && ok ==> sections == old(sections) + Parse(buff).value.0
    {
      if file.None? {
        return minimal;
      }
      buff := file.value;
      if buff == [] {
        return false;
      }
      var entries, current := buff[0] as nat, 1;
      ghost var before, done := sections, [];
      AheadNone(ParseMany(buff, entries, 1));
      for i := 0 to entries
        invariant buff == file.value && sections == before + done
        invariant Ahead(done, ParseMany(buff, entries - i, current)) == Parse(buff)
      {
        var r := ReadEntry(current);
        if r.None? {
          return false;
        }
        AheadOne(buff, done, entries - i, current);
        sections := sections + [r.value.0];
        current := r.value.1;
        done := done + [r.value.0];
      }
      ok := true;
    }

    method ReadEntry(at: nat) returns (r: Option<(Section, nat)>)
      ensures r == ParseOne(buff, at)
    {
      hide Utf8.Decode, FromLittleEndian;
      var current, next := at, at + 2;
      if next > |buff| {
        return None;
      }
      var n := FromLittleEndian(buff[current..next]);
      current, next := next, next + n;
      if next > |buff| {
        return None;
      }
      var name := Utf8.Decode(buff[current..next]);
      if name.None? {
        return None;
      }
      current, next := next, next + 8;
      if next > |buff| {
        return None;
      }
      var size := FromLittleEndian(buff[current..next]);
      current, next := next, next + 8;
      if next > |buff| {
        return None;
      }
      var vma := FromLittleEndian(buff[current..next]);
      current, next := next, next + size;
      if next > |buff| {
        return None;
      }
      r := Some((Section(name.value, vma, size, buff[current..next]), next));
    }
  }
}

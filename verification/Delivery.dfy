/** From the aligner's file to the running guest: writer, reader and loader together. */
module Delivery {
  import opened Common
  import opened LoaderModel
  import opened Loader
  import Format
  import FormatTheorems

  /** Sections as an ELF file holds them, few enough and with ASCII names where they are written. */
  ghost predicate Deliverable(ss: seq<Format.Section>) {
    && (forall i :: 0 <= i < |ss| ==> FormatTheorems.Sound(ss[i]))
    && 1 <= |Format.Kept(ss)| <= 255 && FormatTheorems.AsciiNames(Format.Kept(ss))
  }

  /** The file that is written parses to the sections that were kept. */
  lemma FileParses(ss: seq<Format.Section>)
    requires Deliverable(ss)
    ensures Format.Print(ss).File? && Format.Parse(Format.Print(ss).content).Some?
    ensures Format.Parse(Format.Print(ss).content).value.0 == Format.Kept(ss)
  {
    hide Format.Print, Format.Parse, FormatTheorems.Sound, FormatTheorems.AsciiNames;
    FormatTheorems.RoundTrip(ss);
  }

  /** Every section with a non-zero byte appears at its address in the guest's memory, byte for byte. */
  lemma WrittenIsShown(ss: seq<Format.Section>, c: Setup, m: Memory, list: seq<Listed>, j: nat, k: nat)
    requires Deliverable(ss) && j < |Format.Kept(ss)| && k < |Format.Kept(ss)[j].bytes|
    requires Loadable(c, m, list, Format.Kept(ss)) && Compatible(c, list, Format.Kept(ss))
    ensures Format.Print(ss).File? && Format.Parse(Format.Print(ss).content).Some?
    ensures
      var read := Format.Parse(Format.Print(ss).content).value.0;
      Seen(Image(c, m, list, read), c.region + Format.Kept(ss)[j].vma + k) == Some(Format.Kept(ss)[j].bytes[k])
  {
    hide Format.Print, Format.Parse, Format.Kept, Deliverable, Loadable, Seen, Image, Separate, Apart, ByteDisjoint;
    FileParses(ss);
    PrivateByte(c, m, list, Format.Kept(ss), j, c.region + Format.Kept(ss)[j].vma + k);
  }

  /** The whole way: minimise, read back, map and copy. */
  method Deliver(ss: seq<Format.Section>, list: seq<Listed>, guest: LoaderInfo) returns (ok: bool)
    requires Deliverable(ss) && guest.setup.region % PAGE_SIZE == 0 && Isolated(guest.pages)
    requires Compatible(guest.setup, list, Format.Kept(ss))
    modifies guest
    ensures ok <==> Loadable(guest.setup, old(guest.View()), list, Format.Kept(ss))
    ensures ok ==>
              forall j, k :: 0 <= j < |Format.Kept(ss)| && 0 <= k < |Format.Kept(ss)[j].bytes| ==>
                Seen(guest.View(), guest.setup.region + Format.Kept(ss)[j].vma + k) == Some(Format.Kept(ss)[j].bytes[k])
    ensures guest.pool == old(guest.pool)
  {
    hide Format.Print, Format.Parse, Format.Kept, Deliverable, Loadable, Seen, Image, Compatible, Isolated;
    FileParses(ss);
    var out := Format.ProcessFileAslr(ss);
    var reader := new Format.BinaryLoader();
    var complete := reader.ReadUkFile(false, Some(out.content));
    assert reader.sections == Format.Kept(ss);
    ok := guest.Load(list, reader.sections);
    if ok {
      forall j, k | 0 <= j < |Format.Kept(ss)| && 0 <= k < |Format.Kept(ss)[j].bytes|
        ensures Seen(guest.View(), guest.setup.region + Format.Kept(ss)[j].vma + k) == Some(Format.Kept(ss)[j].bytes[k])
      {
        WrittenIsShown(ss, guest.setup, old(guest.View()), list, j, k);
      }
    }
  }
}

/** Writer and reader of the minimised file fit together exactly for ASCII section names. */
module FormatTheorems {
  import opened Common
  import opened Bytes
  import opened Format
  import Utf8

  /** A section the ELF reader can hand over: fields in range, as many bytes as its size says. */
  predicate Sound(s: Section) {
    Fits(s) && |s.bytes| == s.size
  }

  predicate AsciiNames(ss: seq<Section>) {
    forall i :: 0 <= i < |ss| ==> Utf8.Ascii(ss[i].name)
  }

  lemma Peel(b: seq<byte>, pre: seq<byte>, x: seq<byte>, rest: seq<byte>)
    requires b == pre + (x + rest)
    ensures Slice(b, |pre|, |x|) == Some(x) && b == pre + x + rest
  {
    assert b[|pre|..|pre| + |x|] == x;
  }

  lemma PeelFive(b: seq<byte>, pre: seq<byte>, l: seq<byte>, e: seq<byte>, z: seq<byte>, v: seq<byte>, d: seq<byte>,
      post: seq<byte>)
    requires b == pre + (l + (e + (z + (v + (d + post)))))
    ensures
      var at := |pre|;
      && Slice(b, at, |l|) == Some(l) && Slice(b, at + |l|, |e|) == Some(e) && Slice(b, at + |l| + |e|, |z|) == Some(z)
      && Slice(b, at + |l| + |e| + |z|, |v|) == Some(v) && Slice(b, at + |l| + |e| + |z| + |v|, |d|) == Some(d)
  {
    Peel(b, pre, l, e + (z + (v + (d + post))));
    Peel(b, pre + l, e, z + (v + (d + post)));
    Peel(b, pre + l + e, z, v + (d + post));
    Peel(b, pre + l + e + z, v, d + post);
    Peel(b, pre + l + e + z + v, d, post);
  }

  lemma Reassociate(l: seq<byte>, e: seq<byte>, z: seq<byte>, v: seq<byte>, d: seq<byte>, post: seq<byte>)
    ensures l + (e + (z + (v + d))) + post == l + (e + (z + (v + (d + post))))
  {
    assert v + d + post == v + (d + post);
    assert z + (v + d) + post == z + (v + d + post);
    assert e + (z + (v + d)) + post == e + (z + (v + d) + post);
  }

  /** The five fields of a record are found one after the other. */
  lemma FieldsFound(b: seq<byte>, pre: seq<byte>, s: Section, post: seq<byte>)
    requires b == pre + (Record(s) + post)
    ensures
      var at, e := |pre|, Utf8.Encode(s.name);
      && Slice(b, at, 2) == Some(LittleEndian(|s.name|, 2)) && Slice(b, at + 2, |e|) == Some(e)
      && Slice(b, at + 2 + |e|, 8) == Some(LittleEndian(s.size, 8))
        && Slice(b, at + 10 + |e|, 8) == Some(LittleEndian(s.vma, 8))
      && Slice(b, at + 18 + |e|, |s.bytes|) == Some(s.bytes)
  {
    var l, e, z, v := LittleEndian(|s.name|, 2), Utf8.Encode(s.name), LittleEndian(s.size, 8), LittleEndian(s.vma, 8);
    Reassociate(l, e, z, v, s.bytes, post);
    PeelFive(b, pre, l, e, z, v, s.bytes, post);
  }

  lemma NumbersRoundTrip(s: Section)
    requires Fits(s)
    ensures FromLittleEndian(LittleEndian(|s.name|, 2)) == |s.name|
    ensures FromLittleEndian(LittleEndian(s.size, 8)) == s.size && FromLittleEndian(LittleEndian(s.vma, 8)) == s.vma
  {
    Pow256Values();
    LittleEndianRoundTrip(|s.name|, 2);
    LittleEndianRoundTrip(s.size, 8);
    LittleEndianRoundTrip(s.vma, 8);
  }

  lemma BodyFields(b: seq<byte>, at: nat, s: Section)
    requires Sound(s) && Slice(b, at, 8) == Some(LittleEndian(s.size, 8))
      && Slice(b, at + 8, 8) == Some(LittleEndian(s.vma, 8))
    requires Slice(b, at + 16, s.size) == Some(s.bytes)
    ensures ParseBody(b, at, s.name) == Some((s, at + 16 + s.size))
  {
    NumbersRoundTrip(s);
  }

  lemma RecordLength(s: Section)
    ensures |Record(s)| == 18 + |Utf8.Encode(s.name)| + |s.bytes|
  {
  }

  /** A record with an ASCII name is read back whole, wherever it stands. */
  lemma ParsePrinted(b: seq<byte>, pre: seq<byte>, s: Section, post: seq<byte>)
    requires b == pre + (Record(s) + post) && Sound(s) && Utf8.Ascii(s.name)
    ensures ParseOne(b, |pre|) == Some((s, |pre| + |Record(s)|))
  {
    hide Record, ParseBody, Slice, Utf8.Encode, Utf8.Decode, FromLittleEndian, LittleEndian;
    FieldsFound(b, pre, s, post);
    NumbersRoundTrip(s);
    RecordLength(s);
    Utf8.AsciiLength(s.name);
    Utf8.DecodeExactly(Utf8.Encode(s.name), s.name);
    BodyFields(b, |pre| + 2 + |s.name|, s);
  }

  /** With any other name the reader never finds the section: it takes too few bytes for the name. */
  lemma NameLost(b: seq<byte>, pre: seq<byte>, s: Section, post: seq<byte>)
    requires b == pre + (Record(s) + post) && Sound(s)
    requires ParseOne(b, |pre|).Some? && ParseOne(b, |pre|).value.0.name == s.name
    ensures Utf8.Ascii(s.name)
  {
    FieldsFound(b, pre, s, post);
    NumbersRoundTrip(s);
    Utf8.DecodeIsInverse(Slice(b, |pre| + 2, |s.name|).value);
    Utf8.AsciiLength(s.name);
  }

  lemma {:induction false} RecordsParse(b: seq<byte>, pre: seq<byte>, ss: seq<Section>)
    requires b == pre + Records(ss) && forall i :: 0 <= i < |ss| ==> Sound(ss[i])
    ensures ParseMany(b, |ss|, |pre|) == Some((ss, |b|)) <==> AsciiNames(ss)
    decreases |ss|
  {
    hide ParseOne, Record;
    if ss != [] {
      var s := ss[0];
      assert b == pre + Record(s) + Records(ss[1..]);
      assert ss == [s] + ss[1..];
      assert AsciiNames(ss) <==> Utf8.Ascii(s.name) && AsciiNames(ss[1..]);
      if Utf8.Ascii(s.name) {
        ParsePrinted(b, pre, s, Records(ss[1..]));
        RecordsParse(b, pre + Record(s), ss[1..]);
      } else if ParseMany(b, |ss|, |pre|) == Some((ss, |b|)) {
        NameLost(b, pre, s, Records(ss[1..]));
      }
    }
  }

  lemma {:induction false} KeptAreSound(ss: seq<Section>)
    requires forall i :: 0 <= i < |ss| ==> Sound(ss[i])
    ensures forall i :: 0 <= i < |Kept(ss)| ==> Sound(Kept(ss)[i])
  {
    if ss != [] {
      KeptAreSound(ss[1..]);
    }
  }

  /**
    Round trip: a file is written for any list of sections with one to 255 non-zero ones; it gives back exactly these
    sections, in order and without a byte left over, if and only if all their names are ASCII.
    */
  lemma RoundTrip(ss: seq<Section>)
    requires forall i :: 0 <= i < |ss| ==> Sound(ss[i])
    ensures Print(ss).File? <==> 1 <= |Kept(ss)| <= 255
    ensures Print(ss).File? ==>
              (Parse(Print(ss).content) == Some((Kept(ss), |Print(ss).content|)) <==> AsciiNames(Kept(ss)))
  {
    KeptAreSound(ss);
    if 1 <= |Kept(ss)| <= 255 {
      var b := Print(ss).content;
      Pow256Values();
      LittleEndianRoundTrip(|Kept(ss)|, 1);
      var head := LittleEndian(|Kept(ss)|, 1);
      CountByte(|Kept(ss)|);
      assert b[0] == head[0];
      RecordsParse(b, head, Kept(ss));
    }
  }

  /** One accented letter as the name of one section: its file is written, and does not give the section back. */
  lemma AccentLost() returns (s: Section)
    ensures Sound(s) && |s.name| == 1 && Kept([s]) == [s] && Print([s]).File?
    ensures Parse(Print([s]).content) != Some(([s], |Print([s]).content|))
  {
    hide Print, Parse;
    s := Section([0xE9 as char], 0, 1, [1]);
    assert s.bytes[0] != 0 && [s][1..] == [];
    assert Kept([s]) == [s];
    assert s.name[0] as int == 0xE9;
    RoundTrip([s]);
  }

  lemma CountByte(n: nat)
    requires n < 256
    ensures |LittleEndian(n, 1)| == 1 && LittleEndian(n, 1)[0] as nat == n
  {
  }

  lemma Glue(b: seq<byte>, i: nat, j: nat, k: nat)
    requires i <= j <= k <= |b|
    ensures b[i..k] == b[i..j] + b[j..k]
  {
  }

  lemma BodyPrinted(b: seq<byte>, at: nat, name: string)
    requires ParseBody(b, at, name).Some?
    ensures
      var s, next := ParseBody(b, at, name).value.0, ParseBody(b, at, name).value.1;
      && s.name == name && s.size < TWO_64 && s.vma < TWO_64 && |s.bytes| == s.size && at <= next <= |b|
      && b[at..next] == LittleEndian(s.size, 8) + (LittleEndian(s.vma, 8) + s.bytes)
  {
    var s, next := ParseBody(b, at, name).value.0, ParseBody(b, at, name).value.1;
    Pow256Values();
    FromLittleEndianRoundTrip(b[at..at + 8]);
    FromLittleEndianRoundTrip(b[at + 8..at + 16]);
    Glue(b, at + 8, at + 16, next);
    Glue(b, at, at + 8, next);
  }

  lemma HeadPrinted(b: seq<byte>, at: nat)
    requires Number(b, at, 2).Some? && Name(b, at + 2, Number(b, at, 2).value).Some?
    ensures
      var n, name := Number(b, at, 2).value, Name(b, at + 2, Number(b, at, 2).value).value;
      && n < 0x1_0000 && at + 2 + n <= |b|
      && b[at..at + 2] == LittleEndian(n, 2) && b[at + 2..at + 2 + n] == Utf8.Encode(name)
      && (Utf8.Ascii(name) <==> |name| == n)
  {
    var n, name := Number(b, at, 2).value, Name(b, at + 2, Number(b, at, 2).value).value;
    Pow256Values();
    FromLittleEndianRoundTrip(b[at..at + 2]);
    Utf8.DecodeIsInverse(b[at + 2..at + 2 + n]);
    Utf8.AsciiLength(name);
  }

  /** What the reader made of a stretch of bytes is what the writer makes of the section, if its name is ASCII. */
  lemma PrintParsed(b: seq<byte>, at: nat)
    requires ParseOne(b, at).Some? && Utf8.Ascii(ParseOne(b, at).value.0.name)
    ensures var one := ParseOne(b, at).value; Sound(one.0) && at <= one.1 <= |b| && b[at..one.1] == Record(one.0)
  {
    hide Number, Name, ParseBody;
    var n := Number(b, at, 2).value;
    BodyPrinted(b, at + 2 + n, Name(b, at + 2, n).value);
    HeadPrinted(b, at);
    Glue(b, at + 2, at + 2 + n, ParseOne(b, at).value.1);
    Glue(b, at, at + 2, ParseOne(b, at).value.1);
  }

  lemma {:induction false} RecordsOfParsed(b: seq<byte>, n: nat, at: nat)
    requires at <= |b| && ParseMany(b, n, at).Some? && AsciiNames(ParseMany(b, n, at).value.0)
    ensures var r := ParseMany(b, n, at).value; at <= r.1 <= |b| && |r.0| == n && b[at..r.1] == Records(r.0)
  {
    hide ParseOne, Record, Sound;
    if n > 0 {
      var one := ParseOne(b, at).value;
      var r, rest := ParseMany(b, n, at).value, ParseMany(b, n - 1, one.1).value;
      assert r.0[0] == one.0 && r.0[1..] == rest.0;
      assert AsciiNames(rest.0) by {
        assert forall i :: 0 <= i < |rest.0| ==> rest.0[i] == r.0[i + 1];
      }
      PrintParsed(b, at);
      RecordsOfParsed(b, n - 1, one.1);
      Glue(b, at, one.1, r.1);
    }
  }

  /**
    Conversely, a file read to its end with ASCII names and no section of zeros is the one written for its
    sections.
   */
  lemma ParsedIsPrinted(b: seq<byte>)
    requires Parse(b).Some? && Parse(b).value.1 == |b|
    requires var ss := Parse(b).value.0; AsciiNames(ss) && ss != [] && Kept(ss) == ss
    ensures Print(Parse(b).value.0) == File(b)
  {
    hide ParseMany, Records, Record;
    var ss := Parse(b).value.0;
    RecordsOfParsed(b, b[0] as nat, 1);
    ParsedFit(b, b[0] as nat, 1);
    CountByte(b[0] as nat);
    assert b == [b[0]] + b[1..|b|];
    assert LittleEndian(|ss|, 1) == [b[0]];
  }

  lemma {:induction false} ParsedFit(b: seq<byte>, n: nat, at: nat)
    requires at <= |b| && ParseMany(b, n, at).Some? && AsciiNames(ParseMany(b, n, at).value.0)
    ensures AllFit(ParseMany(b, n, at).value.0)
  {
    hide ParseOne, Record, Fits;
    if n > 0 {
      var one := ParseOne(b, at).value;
      var r, rest := ParseMany(b, n, at).value, ParseMany(b, n - 1, one.1).value;
      assert AsciiNames(rest.0) by {
        assert forall i :: 0 <= i < |rest.0| ==> rest.0[i] == r.0[i + 1];
      }
      assert r.0[0] == one.0;
      PrintParsed(b, at);
      ParsedFit(b, n - 1, one.1);
    }
  }
}

/**
 * `read_tree_bin_file` (binary_read.py:20-57): frames a byte stream into tagged records. A
 * record starts with an int32 tag; tag -1 is an internal record followed by two doubles and an
 * int32 (20 bytes), any other tag is a leaf label followed by one double (8 bytes). A stream
 * that ends inside a record raises `EOFError`; the records yielded before it stay yielded.
 */
module BinaryRead {
  import opened Wrappers
  import opened Bytes

  /** The dictionaries the generator yields, with each double kept as its eight bytes. */
  datatype Record =
    | LeafRecord(leafLabel: int, cap: Word64)
    | InternalRecord(leftLen: Word64, rightLen: Word64, numInv: int)

  /** The three `EOFError` messages: inside the header, an internal record, or a leaf record. */
  datatype ReadError = HeaderEof | InternalEof | LeafEof

  /** What a consumer of the generator sees: the records yielded, then how iteration ended. */
  datatype Outcome = Outcome(records: seq<Record>, error: Option<ReadError>)

  /** Internal records begin with this tag. */
  const InternalTag: int := -1

  /** `f.read(n)` at position `pos`: at most `n` bytes, fewer at the end of the file. */
  function Read(s: seq<Byte>, pos: nat, n: nat): (r: seq<Byte>)
    requires pos <= |s|
    ensures |r| == if pos + n <= |s| then n else |s| - pos
    ensures r == s[pos..pos + |r|]
  {
    if pos + n <= |s| then s[pos..pos + n] else s[pos..]
  }

  /** A record the writer can produce and the reader gives back unchanged. */
  predicate WellTagged(r: Record)
  {
    match r
    case LeafRecord(lbl, _) => IsInt32(lbl) && lbl != InternalTag
    case InternalRecord(_, _, numInv) => IsInt32(numInv)
  }

  /** The bytes of one record, in the order the struct formats `=i`, `=d`, `=ddi` lay them out. */
  function RecordBytes(r: Record): (b: seq<Byte>)
    requires WellTagged(r)
    ensures |b| == RecordSize(r)
  {
    match r
    case LeafRecord(lbl, cap) => Int32Le(lbl) + cap
    case InternalRecord(l, rr, n) => Int32Le(InternalTag) + l + rr + Int32Le(n)
  }

  /** 12 bytes for a leaf record, 24 for an internal one. */
  function RecordSize(r: Record): nat
  {
    if r.LeafRecord? then 12 else 24
  }

  predicate AllWellTagged(rs: seq<Record>)
  {
    forall k :: 0 <= k < |rs| ==> WellTagged(rs[k])
  }

  /** A sequence of records laid end to end. */
  function Encode(rs: seq<Record>): (b: seq<Byte>)
    requires AllWellTagged(rs)
    ensures |b| == TotalSize(rs)
  {
    if rs == [] then [] else RecordBytes(rs[0]) + Encode(rs[1..])
  }

  /** Σ record sizes. */
  function TotalSize(rs: seq<Record>): nat
  {
    if rs == [] then 0 else RecordSize(rs[0]) + TotalSize(rs[1..])
  }

  /** The outcome `o` preceded by records already yielded. */
  function Prepend(rs: seq<Record>, o: Outcome): (r: Outcome)
    ensures r.records == rs + o.records && r.error == o.error
  {
    Outcome(rs + o.records, o.error)
  }

  /** One turn of the generator loop on the remaining stream. */
  datatype Step = Done | Fail(error: ReadError) | Next(record: Record)

  /**
   * Framing one record: stop on an empty header read, fail on a short header or a short body,
   * otherwise the record whose bytes the stream starts with.
   */
  function NextRecord(s: seq<Byte>): (st: Step)
    ensures st.Done? <==> s == []
    ensures st == Fail(HeaderEof) <==> 0 < |s| < 4
    ensures st.Next? ==> WellTagged(st.record) && RecordSize(st.record) <= |s| &&
                         RecordBytes(st.record) == s[..RecordSize(st.record)]
  {
    if |s| == 0 then Done
    else if |s| < 4 then Fail(HeaderEof)
    else
      var tag := DecodeInt32(s[..4]);
      Int32LeDecode(s[..4]);
      if tag == InternalTag then
        if |s| < 4 + 8 + 8 + 4 then Fail(InternalEof)
        else
          Int32LeDecode(s[20..24]);
          Next(InternalRecord(s[4..12], s[12..20], DecodeInt32(s[20..24])))
      else if |s| < 4 + 8 then Fail(LeafEof)
      else Next(LeafRecord(tag, s[4..12]))
  }

  /** The generator as a function of the stream: records one after another until a stop. */
  function Decode(s: seq<Byte>): (o: Outcome)
    ensures s == [] ==> o == Outcome([], None)
    ensures 0 < |s| < 4 ==> o == Outcome([], Some(HeaderEof))
    decreases |s|
  {
    match NextRecord(s)
    case Done => Outcome([], None)
    case Fail(e) => Outcome([], Some(e))
    case Next(r) => Prepend([r], Decode(s[RecordSize(r)..]))
  }

  /**
   * The records yielded are, in order, exactly the bytes the stream starts with, and iteration
   * ends without an error exactly when they account for the whole stream.
   */
  predicate DecodesPrefix(s: seq<Byte>)
  {
    var o := Decode(s);
    AllWellTagged(o.records) && |Encode(o.records)| <= |s| && Encode(o.records) == s[..|Encode(o.records)|] &&
    (o.error.None? <==> Encode(o.records) == s)
  }

  lemma {:induction false} DecodeIsPrefix(s: seq<Byte>)
    ensures DecodesPrefix(s)
    decreases |s|
  {
    match NextRecord(s)
    case Done =>
    case Fail(e) =>
    case Next(r) =>
      DecodeIsPrefix(s[RecordSize(r)..]);
      PrefixStep(s, r);
  }

  /** One framed record in front of a stream that decodes to a prefix of itself. */
  lemma PrefixStep(s: seq<Byte>, r: Record)
    requires NextRecord(s) == Next(r) && DecodesPrefix(s[RecordSize(r)..])
    ensures DecodesPrefix(s)
  {
    var after := s[RecordSize(r)..];
    var rest := Decode(after);
    var head := s[..RecordSize(r)];
    assert Decode(s) == Outcome([r] + rest.records, rest.error);
    assert ([r] + rest.records)[0] == r && ([r] + rest.records)[1..] == rest.records;
    assert Encode([r] + rest.records) == RecordBytes(r) + Encode(rest.records);
    assert s == head + after;
  }

  /** A stream that starts with a record's bytes frames exactly that record. */
  lemma NextRecordBytes(r: Record, rest: seq<Byte>)
    requires WellTagged(r)
    ensures NextRecord(RecordBytes(r) + rest) == Next(r)
  {
    var s := RecordBytes(r) + rest;
    match r
    case LeafRecord(lbl, cap) =>
      assert s[..4] == Int32Le(lbl);
      DecodeInt32Le(lbl);
      assert s[4..12] == cap;
    case InternalRecord(l, rr, n) =>
      assert s[..4] == Int32Le(InternalTag) && s[20..24] == Int32Le(n);
      DecodeInt32Le(InternalTag);
      DecodeInt32Le(n);
      assert s[4..12] == l && s[12..20] == rr;
  }

  /** A stream holding only the first `k` bytes of a record fails where the cut falls. */
  lemma NextRecordCut(r: Record, k: nat)
    requires WellTagged(r) && 0 < k < RecordSize(r)
    ensures NextRecord(RecordBytes(r)[..k]) ==
            Fail(if k < 4 then HeaderEof else if r.InternalRecord? then InternalEof else LeafEof)
  {
    if k >= 4 {
      var s := RecordBytes(r)[..k];
      match r
      case LeafRecord(lbl, _) =>
        assert s[..4] == Int32Le(lbl);
        DecodeInt32Le(lbl);
      case InternalRecord(_, _, _) =>
        assert s[..4] == Int32Le(InternalTag);
        DecodeInt32Le(InternalTag);
    }
  }

  /** The records of one stream after another. */
  lemma {:induction false} EncodeAppend(a: seq<Record>, b: seq<Record>)
    requires AllWellTagged(a) && AllWellTagged(b)
    ensures AllWellTagged(a + b) && Encode(a + b) == Encode(a) + Encode(b)
    decreases |a|
  {
    if a == [] {
      assert a + b == b;
    } else {
      assert (a + b)[1..] == a[1..] + b;
      EncodeAppend(a[1..], b);
    }
  }

  /** A slice of a slice is a slice of the whole. */
  lemma SubSlice(s: seq<Byte>, i: nat, j: nat, k: nat, l: nat)
    requires i <= j <= |s| && k <= l <= j - i
    ensures s[i..j][k..l] == s[i + k..i + l]
  {
    var a, b := s[i..j][k..l], s[i + k..i + l];
    assert |a| == |b|;
    assert forall x :: 0 <= x < |a| ==> a[x] == s[i + k + x] == b[x];
  }

  /** An internal record framed at `pos`, with its fields named by their positions. */
  lemma FrameInternal(s: seq<Byte>, pos: nat)
    requires pos + 24 <= |s| && DecodeInt32(s[pos..pos + 4]) == InternalTag
    ensures NextRecord(s[pos..]) ==
            Next(InternalRecord(s[pos + 4..pos + 12], s[pos + 12..pos + 20], DecodeInt32(s[pos + 20..pos + 24])))
  {
    var here := s[pos..];
    SubSlice(s, pos, |s|, 0, 4);
    SubSlice(s, pos, |s|, 4, 12);
    SubSlice(s, pos, |s|, 12, 20);
    SubSlice(s, pos, |s|, 20, 24);
    assert here[..4] == here[0..4];
  }

  /** A leaf record framed at `pos`. */
  lemma FrameLeaf(s: seq<Byte>, pos: nat)
    requires pos + 12 <= |s| && DecodeInt32(s[pos..pos + 4]) != InternalTag
    ensures NextRecord(s[pos..]) == Next(LeafRecord(DecodeInt32(s[pos..pos + 4]), s[pos + 4..pos + 12]))
  {
    var here := s[pos..];
    SubSlice(s, pos, |s|, 0, 4);
    SubSlice(s, pos, |s|, 4, 12);
    assert here[..4] == here[0..4] == s[pos..pos + 4];
    assert |here| >= 12 && DecodeInt32(here[..4]) != InternalTag;
  }

  /** A body cut short at `pos`. */
  lemma FrameCut(s: seq<Byte>, pos: nat)
    requires pos + 4 <= |s|
    ensures var tag := DecodeInt32(s[pos..pos + 4]);
            (tag == InternalTag && |s| < pos + 24 ==> NextRecord(s[pos..]) == Fail(InternalEof)) &&
            (tag != InternalTag && |s| < pos + 12 ==> NextRecord(s[pos..]) == Fail(LeafEof))
  {
    SubSlice(s, pos, |s|, 0, 4);
    assert s[pos..][..4] == s[pos..][0..4];
  }

  /** `Decode` after one framed record. */
  lemma DecodeNext(s: seq<Byte>, r: Record)
    requires NextRecord(s) == Next(r)
    ensures RecordSize(r) <= |s| && Decode(s) == Prepend([r], Decode(s[RecordSize(r)..]))
  {
  }

  /** `Decode` at a failed framing step. */
  lemma DecodeFail(s: seq<Byte>, e: ReadError)
    requires NextRecord(s) == Fail(e)
    ensures Decode(s) == Outcome([], Some(e))
  {
  }

  /** Prepending in two steps is prepending once. */
  lemma PrependTwice(a: seq<Record>, b: seq<Record>, o: Outcome)
    ensures Prepend(a, Prepend(b, o)) == Prepend(a + b, o)
  {
    assert a + (b + o.records) == (a + b) + o.records;
  }

  /** A stream that starts with a record yields that record, then whatever follows yields. */
  lemma DecodeCons(r: Record, rest: seq<Byte>)
    requires WellTagged(r)
    ensures Decode(RecordBytes(r) + rest) == Prepend([r], Decode(rest))
  {
    NextRecordBytes(r, rest);
    DecodeNext(RecordBytes(r) + rest, r);
    assert (RecordBytes(r) + rest)[RecordSize(r)..] == rest;
  }

  /** The bytes of a non-empty record sequence followed by more bytes. */
  lemma EncodeCons(rs: seq<Record>, tail: seq<Byte>)
    requires rs != [] && AllWellTagged(rs)
    ensures Encode(rs) + tail == RecordBytes(rs[0]) + (Encode(rs[1..]) + tail)
  {
  }

  /** Decoding what the records encode to gives them back, in order and with no error. */
  lemma {:induction false} DecodeEncode(rs: seq<Record>)
    requires AllWellTagged(rs)
    ensures Decode(Encode(rs)) == Outcome(rs, None)
    decreases |rs|
  {
    if rs != [] {
      DecodeCons(rs[0], Encode(rs[1..]));
      DecodeEncode(rs[1..]);
      assert [rs[0]] + rs[1..] == rs;
    }
  }

  /**
   * A stream cut inside its last record yields every complete record before the cut and then the
   * error for the part it was reading: the header, an internal body or a leaf body.
   */
  lemma {:induction false} DecodeTruncated(rs: seq<Record>, r: Record, k: nat)
    requires AllWellTagged(rs) && WellTagged(r) && 0 < k < RecordSize(r)
    ensures Decode(Encode(rs) + RecordBytes(r)[..k]) ==
            Outcome(rs, Some(if k < 4 then HeaderEof else if r.InternalRecord? then InternalEof else LeafEof))
    decreases |rs|
  {
    var tail := RecordBytes(r)[..k];
    var e := if k < 4 then HeaderEof else if r.InternalRecord? then InternalEof else LeafEof;
    if rs == [] {
      assert Encode(rs) + tail == tail;
      NextRecordCut(r, k);
      DecodeFail(tail, e);
    } else {
      var rest := Encode(rs[1..]) + tail;
      EncodeCons(rs, tail);
      DecodeCons(rs[0], rest);
      DecodeTruncated(rs[1..], r, k);
      assert [rs[0]] + rs[1..] == rs;
    }
  }

  /**
   * One turn of the generator loop at `pos`: read a 4-byte header, stop when nothing came back,
   * otherwise read the record's body; `next` is where the following turn starts.
   */
  method ReadRecord(s: seq<Byte>, pos: nat) returns (st: Step, next: nat)
    requires pos <= |s|
    ensures st == NextRecord(s[pos..])
    ensures st.Next? ==> next == pos + RecordSize(st.record) <= |s|
  {
    next := pos;
    var intBytes := Read(s, pos, 4);
    if |intBytes| == 0 {
      return Done, next;
    }
    if |intBytes| < 4 {
      return Fail(HeaderEof), next;
    }
    FrameCut(s, pos);
    var tag := DecodeInt32(intBytes);
    if tag == InternalTag {
      var rest := Read(s, pos + 4, 8 + 8 + 4);
      if |rest| < 20 {
        return Fail(InternalEof), next;
      }
      SubSlice(s, pos + 4, pos + 24, 0, 8);
      SubSlice(s, pos + 4, pos + 24, 8, 16);
      SubSlice(s, pos + 4, pos + 24, 16, 20);
      assert rest[..8] == rest[0..8];
      FrameInternal(s, pos);
      st := Next(InternalRecord(rest[..8], rest[8..16], DecodeInt32(rest[16..20])));
      next := pos + 24;
    } else {
      var capBytes := Read(s, pos + 4, 8);
      if |capBytes| < 8 {
        return Fail(LeafEof), next;
      }
      FrameLeaf(s, pos);
      st := Next(LeafRecord(tag, capBytes));
      next := pos + 12;
    }
  }

  /** `read_tree_bin_file`: the records the generator yields, and the error that ended it, if any. */
  method ReadTreeBinFile(s: seq<Byte>) returns (records: seq<Record>, error: Option<ReadError>)
    ensures Outcome(records, error) == Decode(s)
  {
    var pos := 0;
    records := [];
    while true
      invariant pos <= |s|
      invariant Decode(s) == Prepend(records, Decode(s[pos..]))
      decreases |s| - pos
    {
      var st, next := ReadRecord(s, pos);
      match st
      case Done =>
        return records, None;
      case Fail(e) =>
        DecodeFail(s[pos..], e);
        return records, Some(e);
      case Next(record) =>
        DecodeNext(s[pos..], record);
        assert s[pos..][RecordSize(record)..] == s[next..];
        PrependTwice(records, [record], Decode(s[next..]));
        records, pos := records + [record], next;
    }
  }
}

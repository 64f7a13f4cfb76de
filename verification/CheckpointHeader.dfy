/** The header of a checkpoint file (kernel/proc.h), byte by byte as the compiler lays it out. */
module CheckpointHeader {
  import opened Common
  import opened Blocks
  import opened Encoding
  import opened Descriptors

  const MAGIC := 0x4348_4B50
  const VERSION := 1
  const FD_SIZE := 24
  const HDR_SIZE := 720
  const TF_WORDS := 36   // registers in a trapframe

  datatype Header = Header(pid: int, sz: nat, tf: seq<nat>, name: seq<Byte>, numFds: nat, cwd: nat, fds: seq<FdRec>)

  // ----- one descriptor -----

  function TypeCode(t: FdType): nat {
    match t case FdNone => 0 case FdPipe => 1 case FdInode => 2 case FdDevice => 3
  }

  function TypeOf(c: nat): Option<FdType> {
    if c == 0 then Some(FdNone) else if c == 1 then Some(FdPipe) else if c == 2 then Some(FdInode)
        else if c == 3 then Some(FdDevice) else None
  }

  function Flag(b: bool): Byte { if b then 1 else 0 }

  /** type, readable, writable, two bytes of padding, inum, off, major, two bytes of padding, pipe_id. */
  function EncodeFd(r: FdRec): (b: seq<Byte>)
    ensures |b| == FD_SIZE
  {
    ToBytes(TypeCode(r.typ), 4) + [Flag(r.readable), Flag(r.writable), 0, 0] + ToBytes(r.inum, 4) + ToBytes(r.off, 4)
    + ToBytes(Unsigned(r.major, 2), 2) + [0, 0] + ToBytes(Unsigned(r.pipeId, 4), 4)
  }

  function DecodeFd(b: seq<Byte>): Option<FdRec>
    requires |b| == FD_SIZE
  {
    var t := TypeOf(FromBytes(b[0..4]));
    if t.None? then None
    else Some(FdRec(t.value, b[4] != 0, b[5] != 0, FromBytes(b[8..12]), FromBytes(b[12..16]),
                    Signed(FromBytes(b[16..18]), 2), Signed(FromBytes(b[20..24]), 4)))
  }

  /** The fields fit their C types. */
  predicate FdFits(r: FdRec) {
    r.inum < Pow256(4) && r.off < Pow256(4) && FitsSigned(r.major, 2) && FitsSigned(r.pipeId, 4)
  }

  lemma FdReadsBack(r: FdRec)
    requires FdFits(r)
    ensures DecodeFd(EncodeFd(r)) == Some(r)
  {
    hide ToBytes, FromBytes, Unsigned, Signed, FitsSigned, Pow256;
    var b := EncodeFd(r);
    Powers();
    NumberReadsBack(TypeCode(r.typ), 4);
    NumberReadsBack(r.inum, 4);
    NumberReadsBack(r.off, 4);
    SignedReadsBack(r.major, 2);
    SignedReadsBack(r.pipeId, 4);
    assert b[0..4] == ToBytes(TypeCode(r.typ), 4) && b[8..12] == ToBytes(r.inum, 4) && b[12..16] == ToBytes(r.off, 4);
    assert b[16..18] == ToBytes(Unsigned(r.major, 2), 2) && b[20..24] == ToBytes(Unsigned(r.pipeId, 4), 4);
  }

  function EncodeFds(rs: seq<FdRec>): (b: seq<Byte>)
    ensures |b| == FD_SIZE * |rs|
  {
    if rs == [] then [] else EncodeFd(rs[0]) + EncodeFds(rs[1..])
  }

  function DecodeFds(b: seq<Byte>): (r: Option<seq<FdRec>>)
    ensures r.Some? ==> |r.value| == |b| / FD_SIZE
  {
    if |b| < FD_SIZE then Some([])
    else
      var first, rest := DecodeFd(b[..FD_SIZE]), DecodeFds(b[FD_SIZE..]);
      if first.None? || rest.None? then None else Some([first.value] + rest.value)
  }

  lemma {:induction false} FdsReadBack(rs: seq<FdRec>)
    requires forall k | 0 <= k < |rs| :: FdFits(rs[k])
    ensures DecodeFds(EncodeFds(rs)) == Some(rs)
  {
    hide EncodeFd, DecodeFd, FdFits;
    if rs != [] {
      var b := EncodeFds(rs);
      FdReadsBack(rs[0]);
      FdsReadBack(rs[1..]);
      assert b[..FD_SIZE] == EncodeFd(rs[0]) && b[FD_SIZE..] == EncodeFds(rs[1..]);
      assert [rs[0]] + rs[1..] == rs;
    }
  }

  lemma {:induction false} RegistersReadBack(ws: seq<nat>)
    requires forall k | 0 <= k < |ws| :: ws[k] < Pow256(8)
    ensures WordsOf(BytesOf(ws)) == ws
  {
    if ws != [] {
      var b := BytesOf(ws);
      NumberReadsBack(ws[0], 8);
      RegistersReadBack(ws[1..]);
      assert b[..8] == ToBytes(ws[0], 8) && b[8..] == BytesOf(ws[1..]);
    }
  }

  // ----- the header -----

  predicate Fits(h: Header) {
    && FitsSigned(h.pid, 4) && h.sz < Pow256(8) && h.numFds < Pow256(4) && h.cwd < Pow256(4)
    && |h.tf| == TF_WORDS && (forall k | 0 <= k < TF_WORDS :: h.tf[k] < Pow256(8)) && |h.name| == 16
    && |h.fds| == NOFILE && forall k | 0 <= k < NOFILE :: FdFits(h.fds[k])
  }

  /** magic, version, pid, four bytes of padding, sz. */
  function EncodeStart(h: Header): (b: seq<Byte>)
    ensures |b| == 24
  {
    ToBytes(MAGIC, 4) + ToBytes(VERSION, 4) + ToBytes(Unsigned(h.pid, 4), 4) + [0, 0, 0, 0] + ToBytes(h.sz, 8)
  }

  function EncodeHeader(h: Header): (b: seq<Byte>)
    requires |h.tf| == TF_WORDS && |h.name| == 16 && |h.fds| == NOFILE
    ensures |b| == HDR_SIZE
  {
    EncodeStart(h) + BytesOf(h.tf) + h.name + ToBytes(h.numFds, 4) + ToBytes(h.cwd, 4) + EncodeFds(h.fds)
  }

  /** What restore_proc() makes of a header: none if magic or version is wrong, or a descriptor has no known type. */
  function DecodeHeader(b: seq<Byte>): (h: Option<Header>)
    requires |b| == HDR_SIZE
    ensures h.Some? ==> |h.value.tf| == TF_WORDS && |h.value.name| == 16 && |h.value.fds| == NOFILE
  {
    var fds := DecodeFds(b[336..720]);
    if FromBytes(b[0..4]) != MAGIC || FromBytes(b[4..8]) != VERSION || fds.None? then None
    else Some(Header(Signed(FromBytes(b[8..12]), 4), FromBytes(b[16..24]), WordsOf(b[24..312]), b[312..328],
                     FromBytes(b[328..332]), FromBytes(b[332..336]), fds.value))
  }

  lemma StartReadsBack(h: Header)
    requires FitsSigned(h.pid, 4) && h.sz < Pow256(8)
    ensures var b := EncodeStart(h);
            && FromBytes(b[0..4]) == MAGIC && FromBytes(b[4..8]) == VERSION
            && Signed(FromBytes(b[8..12]), 4) == h.pid && FromBytes(b[16..24]) == h.sz
  {
    hide ToBytes, FromBytes, Unsigned, Signed, FitsSigned, Pow256;
    var b := EncodeStart(h);
    Powers();
    NumberReadsBack(MAGIC, 4);
    NumberReadsBack(VERSION, 4);
    SignedReadsBack(h.pid, 4);
    NumberReadsBack(h.sz, 8);
    assert b[0..4] == ToBytes(MAGIC, 4) && b[4..8] == ToBytes(VERSION, 4);
    assert b[8..12] == ToBytes(Unsigned(h.pid, 4), 4) && b[16..24] == ToBytes(h.sz, 8);
  }

  /** A header reads back as it was written. */
  lemma HeaderReadsBack(h: Header)
    requires Fits(h)
    ensures DecodeHeader(EncodeHeader(h)) == Some(h)
  {
    hide ToBytes, FromBytes, Signed, FitsSigned, Pow256, EncodeStart, EncodeFds, DecodeFds, FdFits, WordsOf, BytesOf;
    var b := EncodeHeader(h);
    StartReadsBack(h);
    RegistersReadBack(h.tf);
    NumberReadsBack(h.numFds, 4);
    NumberReadsBack(h.cwd, 4);
    FdsReadBack(h.fds);
    Pieces(b, EncodeStart(h), BytesOf(h.tf), h.name, ToBytes(h.numFds, 4), ToBytes(h.cwd, 4), EncodeFds(h.fds));
    var start := EncodeStart(h);
    assert b[0..4] == start[0..4] && b[4..8] == start[4..8] && b[8..12] == start[8..12] && b[16..24] == start[16..24];
  }

  lemma Pieces(b: seq<Byte>, start: seq<Byte>, tf: seq<Byte>, name: seq<Byte>, num: seq<Byte>, cwd: seq<Byte>,
               fds: seq<Byte>)
    requires b == start + tf + name + num + cwd + fds
    requires |start| == 24 && |tf| == 288 && |name| == 16 && |num| == 4 && |cwd| == 4 && |fds| == 384
    ensures |b| == 720 && b[..24] == start && b[24..312] == tf && b[312..328] == name && b[328..332] == num &&
            b[332..336] == cwd && b[336..720] == fds
  {
  }
}

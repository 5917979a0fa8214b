/** The ring buffer `nxd_rbuffer` between a producer and the response body. */
module RingBuffer {
  import opened Octets

  /** The octets between the read and the write position. */
  ghost function Held(b: seq<Byte>, rd: nat, wr: nat, lastWrite: bool): (r: seq<Byte>)
    requires rd <= |b| && wr <= |b|
  {
    if rd < wr then b[rd..wr]
    else if rd == wr && !lastWrite then []
    else b[rd..] + b[..wr]
  }

  /** A position after moving on by `n`, back to the start at the end of the buffer. */
  function Wrap(pos: nat, n: nat, length: nat): (r: nat)
  {
    if pos + n >= length then 0 else pos + n
  }

  ghost predicate Placed(b: seq<Byte>, rd: nat, wr: nat) {
    rd < |b| && wr < |b|
  }

  function Room(length: nat, rd: nat, wr: nat, lastWrite: bool): (size: int) {
    if rd == wr && lastWrite then 0 else if rd > wr then rd - wr else length - wr
  }

  function Run(length: nat, rd: nat, wr: nat, lastWrite: bool): (size: int) {
    if rd == wr && !lastWrite then 0 else if wr > rd then wr - rd else length - rd
  }

  ghost predicate Overwritten(b: seq<Byte>, c: seq<Byte>, pos: nat, data: seq<Byte>) {
    && pos + |data| <= |b| == |c| && c[pos..pos + |data|] == data
    && c[..pos] == b[..pos] && c[pos + |data|..] == b[pos + |data|..]
  }

  lemma HeldShape(b: seq<Byte>, rd: nat, wr: nat, lastWrite: bool)
    requires Placed(b, rd, wr)
    ensures var h := Held(b, rd, wr, lastWrite);
      var run := Run(|b|, rd, wr, lastWrite);
      && 0 <= run <= |h| && rd + run <= |b| && h[..run] == b[rd..rd + run]
      && (run == 0 <==> h == [])
      && (run == |h| <==> run == 0 || wr > rd || wr == 0)
  {
    var h, run := Held(b, rd, wr, lastWrite), Run(|b|, rd, wr, lastWrite);
    if wr <= rd && run > 0 {
      assert h == b[rd..] + b[..wr] && b[rd..] == b[rd..rd + run];
      assert h[..run] == b[rd..];
    }
  }

  lemma RoomShape(b: seq<Byte>, rd: nat, wr: nat, lastWrite: bool)
    requires Placed(b, rd, wr)
    ensures var h := Held(b, rd, wr, lastWrite);
      var room := Room(|b|, rd, wr, lastWrite);
      && 0 <= room && wr + room <= |b| && |h| + room <= |b|
      && (room == 0 <==> |h| == |b|)
  {
  }

  lemma WriteShape(b: seq<Byte>, c: seq<Byte>, rd: nat, wr: nat, lastWrite: bool, data: seq<Byte>)
    requires Placed(b, rd, wr) && 0 < |data| <= Room(|b|, rd, wr, lastWrite)
    requires Overwritten(b, c, wr, data)
    ensures Wrap(wr, |data|, |b|) < |b|
    ensures Held(c, rd, Wrap(wr, |data|, |b|), true) == Held(b, rd, wr, lastWrite) + data
    ensures Run(|b|, rd, Wrap(wr, |data|, |b|), true) >= Run(|b|, rd, wr, lastWrite)
  {
    var end := wr + |data|;
    if rd > wr {
      assert c[rd..] == b[rd..] by { assert c[end..][rd - end..] == b[end..][rd - end..]; }
      assert c[..end] == b[..wr] + data;
    } else {
      assert c[rd..wr] == b[rd..wr] by { assert c[..wr][rd..] == b[..wr][rd..]; }
      assert c[rd..end] == c[rd..wr] + c[wr..end];
      if end == |b| { assert c[rd..] + c[..0] == c[rd..end]; }
    }
  }

  lemma ReadShape(b: seq<Byte>, rd: nat, wr: nat, lastWrite: bool, n: nat)
    requires Placed(b, rd, wr) && 0 < n <= Run(|b|, rd, wr, lastWrite)
    ensures Wrap(rd, n, |b|) < |b|
    ensures Held(b, Wrap(rd, n, |b|), wr, false) == Held(b, rd, wr, lastWrite)[n..]
    ensures n + Run(|b|, Wrap(rd, n, |b|), wr, false) >= Run(|b|, rd, wr, lastWrite)
  {
  }

  lemma Rest(stream: seq<Byte>, taken: nat, n: nat, data: seq<Byte>)
    requires taken + n <= |stream|
    ensures (stream + data)[taken..] == stream[taken..] + data
    ensures stream[taken + n..] == stream[taken..][n..]
    ensures stream[taken..][..n] == stream[taken..taken + n]
  {
  }

  method CopyIn(buf: array<Byte>, pos: nat, data: seq<Byte>)
    requires pos + |data| <= buf.Length
    modifies buf
    ensures Overwritten(old(buf[..]), buf[..], pos, data)
  {
    forall i | 0 <= i < |data| { buf[pos + i] := data[i]; }
  }

  /** `nxd_rbuffer` with its pointers as positions in the buffer. */
  class RBuffer {
    const buf: array<Byte>
    var rd: nat
    var wr: nat
    var lastWrite: bool
    var eof: bool
    /** Whether the reader (`data_out`) and the writer (`data_in`) may be called. */
    var outReady: bool
    var inReady: bool

    /** Every octet written so far, and how many of them have been read. */
    ghost var stream: seq<Byte>
    ghost var taken: nat

    ghost predicate Valid()
      reads this, buf
    {
      && Placed(buf[..], rd, wr)
      && taken <= |stream| && Held(buf[..], rd, wr, lastWrite) == stream[taken..]
      && ReadyRight(rd == wr && !lastWrite, rd == wr && lastWrite, eof, outReady, inReady)
    }

    /** `nxd_rbuffer_init` */
    constructor (buf: array<Byte>)
      requires buf.Length > 0
      ensures Valid() && this.buf == buf && stream == [] && taken == 0 && !eof
    {
      this.buf := buf;
      rd, wr, lastWrite, eof, outReady, inReady := 0, 0, false, false, false, true;
      stream, taken := [], 0;
    }

    predicate IsEmpty()
      reads this
    {
      rd == wr && !lastWrite
    }

    predicate IsFull()
      reads this
    {
      rd == wr && lastWrite
    }

    /** Size of the run that can be written at the write position: nothing only if the buffer holds
        its whole capacity, so never when the writer is called; else it goes on to the end of the
        buffer, or takes up all the room there is. */
    function WriteRoom(): (size: nat)
      reads this, buf
      requires Valid()
      ensures size == 0 <==> |stream| - taken == buf.Length
      ensures size <= buf.Length - (|stream| - taken)
      ensures wr + size <= buf.Length && size == Room(buf.Length, rd, wr, lastWrite)
      ensures size > 0 ==> wr + size == buf.Length || (wr + size == rd && size == buf.Length - (|stream| - taken))
      ensures inReady && !eof ==> size > 0
    {
      RoomShape(buf[..], rd, wr, lastWrite);
      if IsFull() then 0 else if rd > wr then rd - wr else buf.Length - wr
    }

    /** Size of the run that can be read at the read position: nothing only if nothing is held; else what was
        written first, up to the end of the buffer or all that is held. */
    function ReadRun(): (size: nat)
      reads this, buf
      requires Valid()
      ensures rd + size <= buf.Length && taken + size <= |stream|
      ensures buf[rd..rd + size] == stream[taken..taken + size]
      ensures size == Run(buf.Length, rd, wr, lastWrite)
      ensures size == 0 <==> taken == |stream|
      ensures size > 0 ==> rd + size == buf.Length || taken + size == |stream|
    {
      HeldShape(buf[..], rd, wr, lastWrite);
      var size := if IsEmpty() then 0 else if wr > rd then wr - rd else buf.Length - rd;
      Rest(stream, taken, size, []);
      assert buf[rd..rd + size] == buf[..][rd..rd + size];
      size
    }

    /** `nxd_rbuffer_get_read_ptr` flags the end just when the run is all that remains. */
    predicate ReadEof()
      reads this, buf
      requires Valid()
      ensures ReadEof() <==> eof && taken + ReadRun() == |stream|
    {
      HeldShape(buf[..], rd, wr, lastWrite);
      eof && (ReadRun() == 0 || wr > rd || wr == 0)
    }

    /** The producer's copy into the run at the write position, then `nxd_rbuffer_write`.  What has
        been offered to the reader stays offered. */
    method Write(data: seq<Byte>)
      requires Valid() && !eof && |data| <= WriteRoom()
      modifies this`wr, this`lastWrite, this`stream, this`inReady, this`outReady, buf
      ensures Valid() && stream == old(stream) + data
      ensures ReadRun() >= old(ReadRun())
    {
      hide Held, Overwritten, Run, Room;
      if data != [] {
        ghost var was := buf[..];
        CopyIn(buf, wr, data);
        WriteShape(was, buf[..], rd, wr, lastWrite, data);
        Rest(stream, taken, 0, data);
        wr := wr + |data|;
        if wr >= buf.Length { wr := 0; }
        lastWrite := true;
        outReady := true;
        if rd == wr { inReady := false; }
        stream := stream + data;
      }
    }

    /** The end of the stream arrives from the producer (`rbuffer_data_in_do_read`). */
    method End()
      requires Valid()
      modifies this`eof, this`outReady
      ensures Valid() && eof
    {
      eof := true;
      outReady := true;
    }

    /** `nxd_rbuffer_read`: the next run ends no earlier than the last one did. */
    method Read(n: nat)
      requires Valid() && n <= ReadRun()
      modifies this`rd, this`lastWrite, this`taken, this`inReady, this`outReady
      ensures Valid() && taken == old(taken) + n
      ensures taken + ReadRun() >= old(taken + ReadRun())
    {
      hide Held, Run;
      if n > 0 {
        ReadShape(buf[..], rd, wr, lastWrite, n);
        Rest(stream, taken, n, []);
        rd := rd + n;
        if rd >= buf.Length { rd := 0; }
        lastWrite := false;
        if !eof { inReady := true; }
        if rd == wr && !eof { outReady := false; }
        taken := taken + n;
      }
    }
  }

  /** The reader is called just while something is held or the end is due; until the end has
      arrived, the writer is called just while there is room. */
  predicate ReadyRight(empty: bool, full: bool, eof: bool, outReady: bool, inReady: bool) {
    && (outReady <==> !empty || eof)
    && (!eof ==> (inReady <==> !full))
  }
}

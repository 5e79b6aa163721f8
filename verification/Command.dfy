/** CEC commands: built byte by byte, and serialised as one frame of at most sixteen bytes. */
module Command {

  type Byte = b: int | 0 <= b < 256

  const MAX_DATA_PACKET_SIZE := 64
  const MAX_FRAME_SIZE := 16
  const UNKNOWN_ADDRESS := -1
  const FEATURE_ABORT: Byte := 0x00

  /** One byte of the low four bits of two numbers. */
  function Nibbles(high: int, low: int): (b: Byte)
    ensures 0 <= high < 16 && 0 <= low < 16 ==> b / 16 == high && b % 16 == low
  {
    high % 16 * 16 + low % 16
  }

  lemma NibblesOf(b: Byte)
    ensures Nibbles(b / 16, b % 16) == b
  {
  }

  /** The value of a command. */
  datatype Cmd = Cmd(initiator: int, destination: int, opcodeSet: bool, opcode: Byte, parameters: seq<Byte>) {
    function Size(): nat {
      |parameters| + (if opcodeSet then 1 else 0) + 1
    }

    /** The header: the low four bits of both addresses. */
    function Header(): Byte {
      Nibbles(initiator, destination)
    }

    /** What follows the header. */
    function Body(): seq<Byte> {
      if opcodeSet then [opcode] + parameters else []
    }

    function Frame(withHeader: bool): seq<Byte> {
      (if withHeader then [Header()] else []) + Body()
    }

    predicate WellFormed() {
      && 0 <= initiator < 16 && 0 <= destination < 16
      && |parameters| <= MAX_DATA_PACKET_SIZE && (!opcodeSet ==> parameters == [] && opcode == FEATURE_ABORT)
    }
  }

  const CLEARED := Cmd(UNKNOWN_ADDRESS, UNKNOWN_ADDRESS, false, FEATURE_ABORT, [])

  function PushParameter(parameters: seq<Byte>, b: Byte): seq<Byte> {
    if |parameters| < MAX_DATA_PACKET_SIZE then parameters + [b] else parameters
  }

  function Push(c: Cmd, b: Byte): Cmd {
    if c.initiator == UNKNOWN_ADDRESS && c.destination == UNKNOWN_ADDRESS then
      c.(initiator := b / 16, destination := b % 16)
    else if !c.opcodeSet then c.(opcodeSet := true, opcode := b)
    else c.(parameters := PushParameter(c.parameters, b))
  }

  /** The left fold of PushBack over the bytes. */
  function PushAll(c: Cmd, bytes: seq<Byte>): Cmd {
    if bytes == [] then c else Push(PushAll(c, bytes[..|bytes| - 1]), bytes[|bytes| - 1])
  }

  // ---------- frames and commands ----------

  /** The command that bytes stand for: what does not fit in the packet is cut. */
  function Parts(bytes: seq<Byte>): Cmd
    requires bytes != []
  {
    Cmd(bytes[0] / 16, bytes[0] % 16, |bytes| >= 2, if |bytes| >= 2 then bytes[1] else FEATURE_ABORT,
        if |bytes| <= 2 then [] else if |bytes| <= 66 then bytes[2..] else bytes[2..66])
  }

  lemma {:induction false} PushedParts(bytes: seq<Byte>)
    requires bytes != []
    ensures PushAll(CLEARED, bytes) == Parts(bytes)
  {
    var n := |bytes| - 1;
    if n > 0 {
      PushedParts(bytes[..n]);
      if 2 <= n < 66 {
        assert bytes[..n][2..] + [bytes[n]] == bytes[2..];
      } else if n >= 66 {
        assert bytes[..n][2..66] == bytes[2..66];
        assert n == 66 ==> bytes[..n][2..] == bytes[2..66];
      }
    } else {
      assert bytes[..n] == [];
    }
  }

  lemma PartsFrame(bytes: seq<Byte>)
    requires 0 < |bytes| <= 66
    ensures Parts(bytes).Frame(true) == bytes && Parts(bytes).Size() == |bytes|
  {
    NibblesOf(bytes[0]);
    if |bytes| > 1 {
      assert bytes == [bytes[0]] + ([bytes[1]] + bytes[2..]);
    }
  }

  /** Up to a frame of bytes is what the command made of them serialises to; more is too much. */
  lemma BytesRoundTrip(bytes: seq<Byte>)
    requires bytes != []
    ensures |bytes| <= 66 ==> PushAll(CLEARED, bytes).Frame(true) == bytes && PushAll(CLEARED, bytes).Size() == |bytes|
    ensures PushAll(CLEARED, bytes).Size() <= MAX_FRAME_SIZE <==> |bytes| <= 16
    ensures PushAll(CLEARED, bytes).WellFormed()
  {
    PushedParts(bytes);
    if |bytes| <= 66 {
      PartsFrame(bytes);
    }
  }

  /** The header is 16 times the initiator plus the destination; the opcode and the parameters follow. */
  lemma FrameIs(c: Cmd)
    requires c.WellFormed()
    ensures c.Frame(true)[0] == 16 * c.initiator + c.destination
    ensures c.opcodeSet ==> c.Frame(true)[1] == c.opcode && c.Frame(true)[2..] == c.parameters
    ensures !c.opcodeSet ==> |c.Frame(true)| == 1
    ensures c.Frame(false) == c.Frame(true)[1..]
  {
  }

  /** "Image view on" from address 4 to the TV. */
  lemma ImageViewOn()
    ensures PushAll(CLEARED, [0x40, 0x04]) == Cmd(4, 0, true, 0x04, [])
    ensures Cmd(4, 0, true, 0x04, []).Frame(true) == [0x40, 0x04]
  {
    PushedParts([0x40, 0x04]);
    FrameIs(Cmd(4, 0, true, 0x04, []));
  }

  lemma FrameParts(c: Cmd)
    requires c.WellFormed()
    ensures Parts(c.Frame(true)) == c
  {
    var bytes := c.Frame(true);
    if c.opcodeSet {
      assert bytes[2..] == c.parameters && bytes[1] == c.opcode;
    }
  }

  /** And the bytes of a command make that command again. */
  lemma CommandRoundTrip(c: Cmd)
    requires c.WellFormed()
    ensures PushAll(CLEARED, c.Frame(true)) == c
  {
    FrameParts(c);
    PushedParts(c.Frame(true));
  }

  /** A cleared command is no frame of its own: it serialises like a poll from 15 to 15. */
  lemma ClearedLooksLikeAPoll()
    ensures CLEARED.Frame(true) == PushAll(CLEARED, [0xFF]).Frame(true) && CLEARED != PushAll(CLEARED, [0xFF])
  {
    PushedParts([0xFF]);
  }

  // ---------- the structures ----------

  class Packet {
    const data: array<Byte>
    var size: nat

    ghost predicate Valid() reads this {
      data.Length == MAX_DATA_PACKET_SIZE && size <= MAX_DATA_PACKET_SIZE
    }

    ghost function Contents(): seq<Byte>
      requires Valid()
      reads this, data
    {
      data[..size]
    }

    constructor ()
      ensures Valid() && fresh(data) && Contents() == []
    {
      data := new Byte[MAX_DATA_PACKET_SIZE](_ => 0);
      size := 0;
    }

    method PushBack(add: Byte)
      requires Valid()
      modifies this, data
      ensures Valid() && Contents() == PushParameter(old(Contents()), add)
    {
      if size < MAX_DATA_PACKET_SIZE {
        data[size] := add;
        size := size + 1;
      }
    }

    method At(pos: nat) returns (b: Byte)
      requires Valid()
      ensures b == if pos < size then Contents()[pos] else 0
    {
      b := if pos < size then data[pos] else 0;
    }

    method Clear()
      requires Valid()
      modifies this, data
      ensures Valid() && Contents() == []
    {
      forall i | 0 <= i < data.Length {
        data[i] := 0;
      }
      size := 0;
    }

    /** The loop of cec_command::Serialize over the parameters. */
    method CopyTo(buffer: array<Byte>, start: nat)
      requires Valid() && start + size <= buffer.Length && buffer != data
      modifies buffer
      ensures buffer[..] == old(buffer[..start]) + Contents() + old(buffer[start + size..])
    {
      var p := 0;
      while p < size
        invariant 0 <= p <= size
        invariant forall j :: 0 <= j < buffer.Length ==>
                    buffer[j] == if start <= j < start + p then data[j - start] else old(buffer[j])
      {
        buffer[start + p] := data[p];
        p := p + 1;
      }
    }

    /** In place: byte i takes the value of byte i + shiftBy. */
    method Shift(shiftBy: nat)
      requires Valid()
      modifies this, data
      ensures Valid() && Contents() == if shiftBy >= old(size) then [] else old(Contents())[shiftBy..]
    {
      if shiftBy >= size {
        Clear();
        return;
      }
      var i := 0;
      while i < size
        invariant 0 <= i <= size && Valid() && size == old(size)
        invariant forall j :: 0 <= j < i && j + shiftBy < size ==> data[j] == old(data[j + shiftBy])
        invariant forall j :: i <= j < size ==> data[j] == old(data[j])
      {
        data[i] := if i + shiftBy < size then data[i + shiftBy] else 0;
        i := i + 1;
      }
      size := size - shiftBy;
    }
  }

  class CecCommand {
    var initiator: int
    var destination: int
    var opcodeSet: bool
    var opcode: Byte
    const parameters: Packet

    ghost predicate Valid() reads this, parameters {
      parameters.Valid()
    }

    ghost function Value(): Cmd
      requires Valid()
      reads this, parameters, parameters.data
    {
      Cmd(initiator, destination, opcodeSet, opcode, parameters.Contents())
    }

    constructor ()
      ensures Valid() && fresh(parameters) && fresh(parameters.data) && Value() == CLEARED
    {
      initiator, destination := UNKNOWN_ADDRESS, UNKNOWN_ADDRESS;
      opcodeSet, opcode := false, FEATURE_ABORT;
      parameters := new Packet();
    }

    method PushBack(b: Byte)
      requires Valid()
      modifies this, parameters, parameters.data
      ensures Valid() && Value() == Push(old(Value()), b)
    {
      if initiator == UNKNOWN_ADDRESS && destination == UNKNOWN_ADDRESS {
        initiator, destination := b / 16, b % 16;
      } else if !opcodeSet {
        opcodeSet, opcode := true, b;
      } else {
        parameters.PushBack(b);
      }
    }

    method PushArray(bytes: seq<Byte>)
      requires Valid()
      modifies this, parameters, parameters.data
      ensures Valid() && Value() == PushAll(old(Value()), bytes)
    {
      for i := 0 to |bytes|
        invariant Valid() && Value() == PushAll(old(Value()), bytes[..i])
      {
        PushBack(bytes[i]);
        assert bytes[..i + 1][..i] == bytes[..i];
      }
      assert bytes[..|bytes|] == bytes;
    }

    /** Writes the frame at the start of the buffer, or nothing and returns -1. */
    method Serialize(buffer: array<Byte>, bufSize: nat, withHeader: bool) returns (r: int)
      requires Valid() && bufSize <= buffer.Length && buffer != parameters.data
      modifies buffer
      ensures r == -1 <==> Value().Size() > MAX_FRAME_SIZE || Value().Size() - (if withHeader then 0 else 1) > bufSize
      ensures r == -1 ==> buffer[..] == old(buffer[..])
      ensures r != -1 ==> r == |Value().Frame(withHeader)| <= bufSize
                          && buffer[..] == Value().Frame(withHeader) + old(buffer[r..])
    {
      var size := parameters.size + (if opcodeSet then 1 else 0) + 1;
      var needed := if withHeader then size else size - 1;
      if size > MAX_FRAME_SIZE || needed > bufSize {
        return -1;
      }
      ghost var before, head := buffer[..], if withHeader then [Nibbles(initiator, destination)] else [];
      r := 0;
      if withHeader {
        buffer[0] := Nibbles(initiator, destination);
        r := 1;
      }
      assert buffer[..] == head + before[r..];
      if opcodeSet {
        r := WriteBody(buffer, r);
        assert buffer[..] == head + ([opcode] + parameters.Contents()) + before[r..];
      } else {
        assert head + [] == head;
      }
    }

    /** The opcode and the parameters, from start on. */
    method WriteBody(buffer: array<Byte>, start: nat) returns (r: nat)
      requires Valid() && start + parameters.size + 1 <= buffer.Length && buffer != parameters.data
      modifies buffer
      ensures r == start + 1 + parameters.size
      ensures buffer[..] == old(buffer[..start]) + ([opcode] + parameters.Contents()) + old(buffer[r..])
    {
      buffer[start] := opcode;
      parameters.CopyTo(buffer, start + 1);
      r := start + 1 + parameters.size;
    }
  }
}

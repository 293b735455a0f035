/** The SPI controller itself: the channel and the chain position change in place while the buffer is filled. */
module Esp32s3SpiDevice {
  import opened Bits
  import opened SpiDma

  class Esp32s3Spi {
    var memory: Memory
    var channels: seq<Channel>
    const peripheral: nat
    var channel: nat
    var descriptor: nat
    var offset: nat

    /** After a reset no channel is in use. */
    constructor (memory: Memory, channels: seq<Channel>, peripheral: nat)
      ensures View() == Device(memory, channels, peripheral, NO_CHANNEL, 0, 0)
    {
      this.memory, this.channels, this.peripheral := memory, channels, peripheral;
      channel, descriptor, offset := NO_CHANNEL, 0, 0;
    }

    function View(): Device
      reads this
    {
      Device(memory, channels, peripheral, channel, descriptor, offset)
    }

    /** The chain as the reading loop sees it, once a channel is chosen. */
    function Current(): Chain
      requires channel < |channels|
      reads this
    {
      Chain(memory, channels[channel], descriptor, offset)
    }

    /** The search for the channel; a start request is taken up as it is found. */
    method ChooseChannel() returns (found: bool)
      modifies `channels, `channel, `descriptor, `offset
      ensures found <==> Select(old(View()), 0).Some?
      ensures !found ==> View() == old(View())
      ensures found ==>
                var i := Select(old(View()), 0).value;
                |channels| == |old(channels)| && View() == WithChain(old(View()), i, ChainOf(old(View()), i))
    {
      var i := 0;
      while i < |channels|
        invariant i <= |channels| && View() == old(View())
        invariant Select(old(View()), 0) == Select(old(View()), i)
      {
        if channels[i].peripheral == peripheral {
          if channels[i].start {
            channel := i;
            descriptor := CHAINS_AT + channels[i].linkAddress % 0x10_0000;
            offset := 0;
            channels := channels[i := channels[i].(start := false)];
          }
          if channel == i && descriptor != 0 {
            assert Select(old(View()), i) == Some(i);
            return true;
          }
        }
        i := i + 1;
      }
      return false;
    }

    /** The end of a descriptor: hand-back, history, interrupts, and on to the next one. */
    method FinishDescriptor()
      requires channel < |channels| && Mapped(memory, descriptor, 12)
      modifies `memory, `channels, `descriptor, `offset
      ensures |channels| == |old(channels)|
      ensures channels == old(channels)[channel := channels[channel]]
      ensures Current() == Finish(old(Current()))
    {
      var c, next, endsFrame := channels[channel], Next(memory, descriptor), EndsFrame(memory, descriptor);
      if c.writeBack { memory := memory[descriptor + 3 := memory[descriptor + 3] % 128]; }
      c := c.(secondLast := c.last, last := descriptor, upcoming := next, state := descriptor % 0x4_0000);
      c := c.(raw := c.raw + {DONE});
      if endsFrame { c := c.(frameEnd := descriptor, raw := c.raw + {FRAME_END}); }
      if next == 0 { c := c.(parked := true, raw := c.raw + {CHAIN_END}); }
      assert c.raw == channels[channel].raw +
                      ({DONE} + (if endsFrame then {FRAME_END} else {}) + (if next == 0 then {CHAIN_END} else {}));
      channels := channels[channel := c];
      descriptor, offset := next, 0;
    }

    method CopyBytes(buffer: array<Byte>, filled: nat, at: nat, count: nat)
      requires filled + count <= buffer.Length && Mapped(memory, at, count)
      modifies buffer
      ensures buffer[..filled + count] == old(buffer[..filled]) + Block(memory, at, count)
    {
      forall k | 0 <= k < count { buffer[filled + k] := memory[at + k]; }
    }

    /** One pass of the reading loop: 0 when the chain gives nothing more. */
    method TakePiece(buffer: array<Byte>, filled: nat, size: nat) returns (taken: nat)
      requires channel < |channels| && filled < size <= buffer.Length
      modifies `memory, `channels, `descriptor, `offset, buffer
      ensures |channels| == |old(channels)|
      ensures channels == old(channels)[channel := channels[channel]]
      ensures taken == 0 <==> Piece(old(Current()), size - filled).None?
      ensures taken == 0 ==> Current() == old(Current())
      ensures taken > 0 ==> taken == Piece(old(Current()), size - filled).value <= size - filled
      ensures taken > 0 ==> Current() == AfterPiece(old(Current()), size - filled)
      ensures taken > 0 ==>
                buffer[..filled + taken] == old(buffer[..filled]) + PieceBytes(old(Current()), size - filled)
    {
      if !Mapped(memory, descriptor, 12) { return 0; }
      var length := Length(memory, descriptor);
      if length <= offset || (channels[channel].checkOwner && !Owned(memory, descriptor)) { return 0; }
      taken := if size - filled < length - offset then size - filled else length - offset;
      var at := BufferAt(memory, descriptor, offset);
      if !Mapped(memory, at, taken) { return 0; }
      CopyBytes(buffer, filled, at, taken);
      hide Finish, Block, Length, Owned, BufferAt;
      offset := offset + taken;
      if offset == length { FinishDescriptor(); }
    }

    /** The reading loop. */
    method Fill(buffer: array<Byte>, size: nat) returns (ok: bool)
      requires channel < |channels| && size <= buffer.Length
      modifies `memory, `channels, `descriptor, `offset, buffer
      ensures |channels| == |old(channels)|
      ensures channels == old(channels)[channel := channels[channel]]
      ensures SpiDma.Read(old(Current()), size) == if ok then Done(Current(), buffer[..size]) else Failed(Current())
    {
      hide *;
      ghost var start := Current();
      ReadBegins(start, size);
      assert buffer[..0] == [];
      var filled := 0;
      while filled < size
        invariant filled <= size && |channels| == |old(channels)|
        invariant channels == old(channels)[channel := channels[channel]]
        invariant SpiDma.Read(start, size) == Prepend(buffer[..filled], SpiDma.Read(Current(), size - filled))
      {
        ghost var s, before, left := Current(), buffer[..filled], size - filled;
        var taken := TakePiece(buffer, filled, size);
        if taken == 0 {
          ReadStops(start, size, before, s, left);
          return false;
        }
        ReadOn(start, size, before, s, left);
        filled := filled + taken;
      }
      ReadEnds(start, size, buffer[..size], Current());
      return true;
    }

    /** Fills the first `size` bytes of the buffer from the chain. */
    method Read(buffer: array<Byte>, size: nat) returns (ok: bool)
      requires size <= buffer.Length
      modifies this, buffer
      ensures View() == Transfer(old(View()), size).0
      ensures ok <==> Transfer(old(View()), size).1.Some?
      ensures ok ==> buffer[..size] == Transfer(old(View()), size).1.value
    {
      ghost var d := View();
      hide SpiDma.Read, Select;
      var found := ChooseChannel();
      if !found { return false; }
      ok := Fill(buffer, size);
      if ok {
        var c := channels[channel];
        channels := channels[channel := c.(pending := c.raw * c.enabled)];
      }
    }
  }
}

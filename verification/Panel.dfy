/** The panel's serial protocol: four header bytes, then data; pixel data may be cut over any number of transactions. */
module PanelProtocol {
  import opened Bits
  import opened Gram

  /** A reset leaves the memory, the count and the viewport. */
  function Reset(p: Panel): Panel {
    p.(window := Window(0, WIDTH - 1, 0, HEIGHT - 1), x := 0, y := 0, command := 0, params := [], header := [],
      high := None)
  }

  function Command(p: Panel, command: nat): Panel {
    if command == SOFTWARE_RESET then Reset(p)
    else
      var q := p.(command := command, params := [], high := None);
      if command == MEMORY_WRITE then q.(x := q.window.x0, y := q.window.y0) else q
  }

  function Address(params: seq<Byte>, i: nat): nat
    requires i + 1 < |params|
  {
    256 * params[i] as int + params[i + 1] as int
  }

  predicate Writes(command: nat) {
    command == MEMORY_WRITE || command == WRITE_CONTINUE
  }

  function Data(p: Panel, value: Byte): (r: Panel)
    requires |p.gram| == CELLS
    ensures |r.gram| == CELLS
  {
    if p.command == COLUMN_ADDRESS || p.command == ROW_ADDRESS then
      if |p.params| >= 4 then p
      else
        var q := p.(params := p.params + [value]);
        if |q.params| < 4 then q
        else
          var start, end := Address(q.params, 0), Address(q.params, 2);
          if p.command == COLUMN_ADDRESS then q.(window := q.window.(x0 := start, x1 := end))
          else q.(window := q.window.(y0 := start, y1 := end))
    else if Writes(p.command) then
      match p.high
      case None => p.(high := Some(value))
      case Some(high) => WritePixel(p, 256 * high as int + value as int).(high := None)
    else p
  }

  const HEADER: nat := 4

  function Transfer(p: Panel, value: Byte): (r: Panel)
    requires |p.gram| == CELLS
    ensures |r.gram| == CELLS
  {
    if |p.header| >= HEADER then Data(p, value)
    else
      var q := p.(header := p.header + [value]);
      if |q.header| == HEADER then Command(q, q.header[2]) else q
  }

  function TransferAll(p: Panel, bytes: seq<Byte>): (r: Panel)
    requires |p.gram| == CELLS
    ensures |r.gram| == CELLS
    decreases |bytes|
  {
    if bytes == [] then p else TransferAll(Transfer(p, bytes[0]), bytes[1..])
  }

  /** A transaction: select, the header, the data, deselect. */
  function Transaction(p: Panel, header: seq<Byte>, data: seq<Byte>): Panel
    requires |p.gram| == CELLS
  {
    TransferAll(p.(header := []), header + data).(header := [])
  }

  // ----- Pixels as bytes -----

  function PixelBytes(values: seq<nat>): seq<Byte>
    requires PixelsOk(values)
  {
    if values == [] then [] else [values[0] / 256, values[0] % 256] + PixelBytes(values[1..])
  }

  predicate PixelsOk(values: seq<nat>) {
    forall i :: 0 <= i < |values| ==> values[i] < U16
  }

  lemma {:induction false} TransfersAppend(p: Panel, a: seq<Byte>, b: seq<Byte>)
    requires |p.gram| == CELLS
    ensures TransferAll(p, a + b) == TransferAll(TransferAll(p, a), b)
    decreases |a|
  {
    hide Transfer;
    if a == [] {
      assert a + b == b;
    } else {
      assert (a + b)[1..] == a[1..] + b && (a + b)[0] == a[0];
      TransfersAppend(Transfer(p, a[0]), a[1..], b);
    }
  }

  lemma {:induction false} TwoBytes(p: Panel, value: nat)
    requires |p.gram| == CELLS && |p.header| == HEADER && Writes(p.command) && p.high == None && value < U16
    ensures TransferAll(p, [value / 256, value % 256]) == WritePixel(p, value)
  {
    var a: Byte, b: Byte := value / 256, value % 256;
    TransferTwo(p, a, b);
    assert Transfer(p, a) == p.(high := Some(a));
    assert value == 256 * a as int + b as int;
    WriteKeepsProtocol(p, value);
    hide WritePixel;
    HalfAside(p, a, value);
    assert Transfer(Transfer(p, a), b) == WritePixel(p.(high := Some(a)), value).(high := None);
  }

  lemma {:induction false} TransferTwo(p: Panel, a: Byte, b: Byte)
    requires |p.gram| == CELLS
    ensures TransferAll(p, [a, b]) == Transfer(Transfer(p, a), b)
  {
    var q := Transfer(p, a);
    assert [a, b][1..] == [b] && [b][1..] == [];
    hide Transfer;
    assert TransferAll(Transfer(q, b), []) == Transfer(q, b);
    assert TransferAll(q, [b]) == TransferAll(Transfer(q, b), []);
  }

  lemma {:induction false} HalfAside(p: Panel, a: Byte, value: nat)
    requires |p.gram| == CELLS && p.high == None
    ensures WritePixel(p.(high := Some(a)), value).(high := None) == WritePixel(p, value)
  {
  }

  lemma {:induction false} WriteKeepsProtocol(p: Panel, value: nat)
    requires |p.gram| == CELLS
    ensures var r := WritePixel(p, value);
      r.header == p.header && r.command == p.command && r.high == p.high && r.params == p.params
        && r.viewport == p.viewport && |r.gram| == CELLS
  {
  }

  lemma {:induction false} WritesAppend(p: Panel, a: seq<nat>, b: seq<nat>)
    requires |p.gram| == CELLS
    ensures WritePixels(p, a + b) == WritePixels(WritePixels(p, a), b)
    decreases |b|
  {
    if b == [] {
      assert a + b == a;
    } else {
      var n := |a + b| - 1;
      assert (a + b)[..n] == a + b[..|b| - 1] && (a + b)[n] == b[|b| - 1];
      WritesAppend(p, a, b[..|b| - 1]);
      hide WritePixel;
    }
  }

  /** Bytes in pairs write pixels. */
  lemma {:induction false} BytesWritePixels(p: Panel, values: seq<nat>)
    requires |p.gram| == CELLS && |p.header| == HEADER && Writes(p.command) && p.high == None && PixelsOk(values)
    ensures TransferAll(p, PixelBytes(values)) == WritePixels(p, values)
    ensures WritePixels(p, values) ==
      WritePixels(p, values).(header := p.header, command := p.command, high := None, params := p.params)
    decreases |values|
  {
    if values != [] {
      var two: seq<Byte> := [values[0] / 256, values[0] % 256];
      TransfersAppend(p, two, PixelBytes(values[1..]));
      TwoBytes(p, values[0]);
      WriteKeepsProtocol(p, values[0]);
      BytesWritePixels(WritePixel(p, values[0]), values[1..]);
      OnePixel(p, values[0]);
      WritesAppend(p, [values[0]], values[1..]);
      assert [values[0]] + values[1..] == values;
    }
  }

  lemma {:induction false} OnePixel(p: Panel, value: nat)
    requires |p.gram| == CELLS
    ensures WritePixels(p, [value]) == WritePixel(p, value)
  {
    assert [value][..0] == [];
  }

  // ----- Transactions -----

  /** The panel as the data of a transaction finds it. */
  function Opened(p: Panel, header: seq<Byte>): Panel
    requires |header| == HEADER
  {
    Command(p.(header := header), header[2])
  }

  lemma {:induction false} HeaderTaken(p: Panel, header: seq<Byte>)
    requires |p.gram| == CELLS && |header| == HEADER
    ensures TransferAll(p.(header := []), header) == Opened(p, header)
  {
    var a, b := header[..2], header[2..];
    assert header == a + b && a == [header[0], header[1]] && b == [header[2], header[3]];
    TransfersAppend(p.(header := []), a, b);
    TransferTwo(p.(header := []), header[0], header[1]);
    assert [] + [header[0]] == [header[0]] && [header[0]] + [header[1]] == a;
    assert TransferAll(p.(header := []), a) == p.(header := a);
    TransferTwo(p.(header := a), header[2], header[3]);
    assert a + [header[2]] + [header[3]] == header;
    hide Command;
  }

  /** A write or continue transaction writes its pixels, from the window's start or from where the cursor stood. */
  lemma {:induction false} TransactionWrites(p: Panel, header: seq<Byte>, values: seq<nat>)
    requires |p.gram| == CELLS && |header| == HEADER && Writes(header[2]) && PixelsOk(values)
    ensures Transaction(p, header, PixelBytes(values)) == WritePixels(Opened(p, header), values).(header := [])
  {
    HeaderTaken(p, header);
    TransfersAppend(p.(header := []), header, PixelBytes(values));
    BytesWritePixels(Opened(p, header), values);
    hide TransferAll, WritePixels, PixelBytes;
  }

  /** The picture: memory, cursor, window and the count of completed windows. */
  predicate SamePicture(p: Panel, q: Panel) {
    && p.gram == q.gram
    && p.x == q.x
    && p.y == q.y
    && p.window == q.window
    && p.completed == q.completed
    && p.viewport == q.viewport
  }

  lemma {:induction false} WritesDependOnPicture(p: Panel, q: Panel, values: seq<nat>)
    requires |p.gram| == CELLS && SamePicture(p, q)
    ensures SamePicture(WritePixels(p, values), WritePixels(q, values))
  {
    hide Stored, WritePixels, SamePicture;
    SameSize(p, q);
    LastPixel(p, values);
    LastPixel(q, values);
    if values != [] {
      WritesDependOnPicture(p, q, values[..|values| - 1]);
      PixelDependsOnPicture(WritePixels(p, values[..|values| - 1]), WritePixels(q, values[..|values| - 1]),
        values[|values| - 1]);
    }
  }

  lemma {:induction false} SameSize(p: Panel, q: Panel)
    requires SamePicture(p, q)
    ensures |p.gram| == |q.gram|
  {
  }

  lemma {:induction false} LastPixel(p: Panel, values: seq<nat>)
    requires |p.gram| == CELLS
    ensures values == [] ==> WritePixels(p, values) == p
    ensures values != [] ==>
      WritePixels(p, values) == WritePixel(WritePixels(p, values[..|values| - 1]), values[|values| - 1])
    ensures |WritePixels(p, values).gram| == CELLS
  {
  }

  lemma {:induction false} PixelDependsOnPicture(p: Panel, q: Panel, value: nat)
    requires |p.gram| == CELLS && SamePicture(p, q)
    ensures SamePicture(WritePixel(p, value), WritePixel(q, value))
  {
    hide Stored;
  }

  function Joined(pieces: seq<seq<nat>>): seq<nat> {
    if pieces == [] then [] else pieces[0] + Joined(pieces[1..])
  }

  /** Continue transactions, one for each piece. */
  function Continued(p: Panel, header: seq<Byte>, pieces: seq<seq<nat>>): Panel
    requires |p.gram| == CELLS && forall i :: 0 <= i < |pieces| ==> PixelsOk(pieces[i])
    decreases |pieces|
  {
    if pieces == [] then p
    else
      assert PixelsOk(pieces[0]);
      Continued(Transaction(p, header, PixelBytes(pieces[0])), header, pieces[1..])
  }

  lemma {:induction false} ContinuesWriting(p: Panel, header: seq<Byte>, pieces: seq<seq<nat>>)
    requires |p.gram| == CELLS && |header| == HEADER && header[2] == WRITE_CONTINUE
    requires forall i :: 0 <= i < |pieces| ==> PixelsOk(pieces[i])
    ensures SamePicture(Continued(p, header, pieces), WritePixels(p, Joined(pieces)))
    decreases |pieces|
  {
    if pieces != [] {
      var q := Transaction(p, header, PixelBytes(pieces[0]));
      TransactionWrites(p, header, pieces[0]);
      WritesDependOnPicture(Opened(p, header), p, pieces[0]);
      ContinuesWriting(q, header, pieces[1..]);
      WritesDependOnPicture(q, WritePixels(p, pieces[0]), Joined(pieces[1..]));
      WritesAppend(p, pieces[0], Joined(pieces[1..]));
      hide Transaction, WritePixels;
    }
  }

  /**
    A picture may be sent in any number of transactions, cut between any two pixels: one write transaction followed by
    continue transactions leaves memory, cursor and count as one write transaction with all the pixels does.
   */
  lemma {:induction false} CutsAreInvisible(p: Panel, first: seq<Byte>, further: seq<Byte>, start: seq<nat>,
        pieces: seq<seq<nat>>)
    requires |p.gram| == CELLS && |first| == HEADER && first[2] == MEMORY_WRITE && |further| == HEADER
    requires further[2] == WRITE_CONTINUE
    requires PixelsOk(start) && (forall i :: 0 <= i < |pieces| ==> PixelsOk(pieces[i]))
    requires PixelsOk(start + Joined(pieces))
    ensures SamePicture(Continued(Transaction(p, first, PixelBytes(start)), further, pieces),
                        Transaction(p, first, PixelBytes(start + Joined(pieces))))
    ensures SamePicture(Transaction(p, first, PixelBytes(start + Joined(pieces))),
                        WritePixels(p.(x := p.window.x0, y := p.window.y0), start + Joined(pieces)))
  {
    var whole := start + Joined(pieces);
    var at := Opened(p, first);
    TransactionWrites(p, first, start);
    TransactionWrites(p, first, whole);
    var q := Transaction(p, first, PixelBytes(start));
    ContinuesWriting(q, further, pieces);
    WritesDependOnPicture(q, WritePixels(at, start), Joined(pieces));
    WritesAppend(at, start, Joined(pieces));
    WritesDependOnPicture(at, p.(x := p.window.x0, y := p.window.y0), whole);
    hide Transaction, WritePixels, Continued, Joined, PixelBytes;
  }

  // ----- Address transactions -----

  /** Columns or rows from `bytes[0..2]` to `bytes[2..4]`, high byte first. */
  function Moved(w: Window, command: nat, bytes: seq<Byte>): Window
    requires |bytes| >= 4
  {
    var start, end := 256 * bytes[0] as nat + bytes[1] as nat, 256 * bytes[2] as nat + bytes[3] as nat;
    if command == COLUMN_ADDRESS then w.(x0 := start, x1 := end) else w.(y0 := start, y1 := end)
  }

  /** Data of an address command: the first four bytes move the window when they are there, any others nothing. */
  lemma {:induction false} AddressBytes(p: Panel, data: seq<Byte>)
    requires |p.gram| == CELLS && |p.header| == HEADER && |p.params| <= 4
    requires p.command == COLUMN_ADDRESS || p.command == ROW_ADDRESS
    ensures var all, q := p.params + data, TransferAll(p, data);
      && q.params == (if |all| < 4 then all else all[..4])
      && q == p.(params := q.params,
                 window := if |p.params| < 4 <= |all| then Moved(p.window, p.command, all) else p.window)
    decreases |data|
  {
    if data == [] {
      assert p.params + data == p.params;
    } else {
      var q := Transfer(p, data[0]);
      OneAddressByte(p, data[0]);
      hide Transfer, Moved;
      AddressBytes(q, data[1..]);
      if |p.params| < 4 {
        assert p.params + [data[0]] + data[1..] == p.params + data;
        assert |p.params| == 3 ==> (p.params + data)[..4] == p.params + [data[0]];
        if |p.params| == 3 { SameBounds(p.window, p.command, p.params + [data[0]], data[1..]); }
      } else {
        assert (p.params + data)[..4] == p.params && (p.params + data[1..])[..4] == p.params;
      }
    }
  }

  lemma {:induction false} SameBounds(w: Window, command: nat, bytes: seq<Byte>, more: seq<Byte>)
    requires |bytes| == 4
    ensures Moved(w, command, bytes + more) == Moved(w, command, bytes)
  {
  }

  lemma {:induction false} OneAddressByte(p: Panel, value: Byte)
    requires |p.gram| == CELLS && |p.header| == HEADER && |p.params| <= 4
    requires p.command == COLUMN_ADDRESS || p.command == ROW_ADDRESS
    ensures var all := p.params + [value];
      Transfer(p, value) ==
        if |p.params| == 4 then p
        else p.(params := all, window := if |all| == 4 then Moved(p.window, p.command, all) else p.window)
  {
  }

  /**
    A column or row address transaction moves that side of the window to the two 16-bit numbers sent, when all four
    bytes were, and changes nothing else of the picture: not the memory, not the cursor, not the count.
   */
  lemma {:induction false} TransactionMovesWindow(p: Panel, header: seq<Byte>, data: seq<Byte>)
    requires |p.gram| == CELLS && |header| == HEADER && (header[2] == COLUMN_ADDRESS || header[2] == ROW_ADDRESS)
    ensures SamePicture(Transaction(p, header, data),
      p.(window := if |data| >= 4 then Moved(p.window, header[2], data) else p.window))
  {
    HeaderTaken(p, header);
    TransfersAppend(p.(header := []), header, data);
    AddressBytes(Opened(p, header), data);
    assert [] + data == data;
    hide TransferAll;
  }

  /** A reset transaction opens the whole memory and puts the cursor at its start, and keeps the memory. */
  lemma {:induction false} TransactionResets(p: Panel, header: seq<Byte>)
    requires |p.gram| == CELLS && |header| == HEADER && header[2] == SOFTWARE_RESET
    ensures SamePicture(Transaction(p, header, []), p.(window := Window(0, 479, 0, 479), x := 0, y := 0))
  {
    HeaderTaken(p, header);
    assert header + [] == header;
    hide TransferAll;
  }

  /** A transaction with any other command leaves the picture alone, whatever its data. */
  lemma {:induction false} OthersChangeNothing(p: Panel, header: seq<Byte>, data: seq<Byte>)
    requires |p.gram| == CELLS && |header| == HEADER
    requires header[2] !in {SOFTWARE_RESET, COLUMN_ADDRESS, ROW_ADDRESS, MEMORY_WRITE, WRITE_CONTINUE}
    ensures SamePicture(Transaction(p, header, data), p)
  {
    HeaderTaken(p, header);
    TransfersAppend(p.(header := []), header, data);
    DataIgnored(Opened(p, header), data);
    hide TransferAll;
  }

  lemma {:induction false} DataIgnored(p: Panel, data: seq<Byte>)
    requires |p.gram| == CELLS && |p.header| == HEADER && !Writes(p.command)
    requires p.command != COLUMN_ADDRESS && p.command != ROW_ADDRESS
    ensures TransferAll(p, data) == p
    decreases |data|
  {
    if data != [] {
      assert Transfer(p, data[0]) == p;
      hide Transfer;
      DataIgnored(p, data[1..]);
    }
  }
}

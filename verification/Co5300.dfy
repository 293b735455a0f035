/** The display panel itself: its memory is an array, its registers change with every byte on the bus. */
module Co5300Device {
  import opened Bits
  import opened Gram
  import opened PanelProtocol

  class Co5300 {
    const gram: array<nat>
    var window: Window
    var x: nat
    var y: nat
    var completed: nat
    var high: Option<Byte>
    var command: nat
    var params: seq<Byte>
    var header: seq<Byte>
    const viewport: Viewport

    predicate Valid()
      reads this
    {
      gram.Length == CELLS
    }

    function View(): Panel
      requires Valid()
      reads this, gram
    {
      Panel(gram[..], window, x, y, completed, high, command, params, header, viewport)
    }

    constructor (viewport: Viewport)
      ensures Valid() && fresh(gram)
      ensures View().window == Window(0, WIDTH - 1, 0, HEIGHT - 1)
      ensures View().x == View().y == 0
    {
      gram := new nat[CELLS](_ => 0);
      window, x, y, completed, high := Window(0, WIDTH - 1, 0, HEIGHT - 1), 0, 0, 0, None;
      command, params, header := 0, [], [];
      this.viewport := viewport;
    }

    method SelectChanged(level: bool)
      requires Valid()
      modifies `header
      ensures Valid() && View() == if level then old(View()).(header := []) else old(View())
    {
      if level { header := []; }
    }

    method AdvanceCursor()
      requires Valid()
      modifies `x, `y, `completed
      ensures Valid() && View() == Advance(old(View()))
    {
      x := (x + 1) % U16;
      if x <= window.x1 { return; }
      x := window.x0;
      y := (y + 1) % U16;
      if y <= window.y1 { return; }
      y := window.y0;
      if Counts(window, viewport) { completed := completed + 1; }
    }

    method PanelCommand(value: nat)
      requires Valid()
      modifies `window, `x, `y, `command, `params, `header, `high
      ensures Valid() && View() == Command(old(View()), value)
    {
      if value == SOFTWARE_RESET {
        x, y, command, params, header, high := 0, 0, 0, [], [], None;
        window := Window(0, WIDTH - 1, 0, HEIGHT - 1);
        return;
      }
      command, params, high := value, [], None;
      if value == MEMORY_WRITE { x, y := window.x0, window.y0; }
    }

    method AddressData(value: Byte)
      requires Valid() && (command == COLUMN_ADDRESS || command == ROW_ADDRESS)
      modifies `window, `params
      ensures Valid() && View() == Data(old(View()), value)
    {
      if |params| >= 4 { return; }
      params := params + [value];
      if |params| == 4 {
        var start, end := Address(params, 0), Address(params, 2);
        if command == COLUMN_ADDRESS {
          window := window.(x0 := start, x1 := end);
        } else {
          window := window.(y0 := start, y1 := end);
        }
      }
    }

    method StorePixel(value: nat)
      requires Valid()
      modifies gram
      ensures Valid()
      ensures View() == old(View()).(gram := Stored(old(gram[..]), x, y, value))
    {
      if x < WIDTH && y < HEIGHT { gram[y * WIDTH + x] := value; }
    }

    method PixelData(value: Byte)
      requires Valid() && Writes(command)
      modifies `x, `y, `completed, `high, gram
      ensures Valid() && View() == Data(old(View()), value)
    {
      if high == None {
        high := Some(value);
        return;
      }
      var first := high.value;
      hide Advance, Stored;
      StorePixel(256 * first as int + value as int);
      HighAside(View(), None);
      high := None;
      AdvanceCursor();
    }

    method PanelData(value: Byte)
      requires Valid()
      modifies this, gram
      ensures Valid() && View() == Data(old(View()), value)
    {
      if command == COLUMN_ADDRESS || command == ROW_ADDRESS {
        AddressData(value);
      } else if Writes(command) {
        PixelData(value);
      }
    }

    /** One byte on the bus, for a panel that is powered and ready. */
    method TransferByte(value: Byte)
      requires Valid()
      modifies this, gram
      ensures Valid() && View() == Transfer(old(View()), value)
    {
      hide Data, Command;
      if |header| < HEADER {
        header := header + [value];
        if |header| == HEADER { PanelCommand(header[2]); }
      } else {
        PanelData(value);
      }
    }
  }

  lemma {:induction false} HighAside(p: Panel, high: Option<Byte>)
    ensures Advance(p.(high := high)) == Advance(p).(high := high)
  {
  }
}

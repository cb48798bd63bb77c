/** The LCD2USB driver of lcd2usb/main.go. The serial port is abstracted as
    an append-only log of the bytes written to it; every command is a frame
    of the prefix byte 0xFE, a command byte and the command's arguments. */
module Lcd2usb {
  import opened Results

  newtype uint8 = x: int | 0 <= x < 256

  const CmdPrefix: uint8 := 0xFE
  const CmdBacklightOn: uint8 := 0x42
  const CmdBacklightOff: uint8 := 0x46
  const CmdBrightness: uint8 := 0x99
  const CmdContrast: uint8 := 0x50
  const CmdAutoscrollOn: uint8 := 0x51
  const CmdAutoscrollOff: uint8 := 0x52
  const CmdClearScreen: uint8 := 0x58
  const CmdChangeSplash: uint8 := 0x40
  const CmdCursorPosition: uint8 := 0x47
  const CmdHome: uint8 := 0x48
  const CmdCursorBack: uint8 := 0x4C
  const CmdCursorForward: uint8 := 0x4D
  const CmdUnderlineOn: uint8 := 0x4A
  const CmdUnderlineOff: uint8 := 0x4B
  const CmdBlockOn: uint8 := 0x53
  const CmdBlockOff: uint8 := 0x54
  const CmdBacklightColor: uint8 := 0xD0
  const CmdLcdSize: uint8 := 0xD1
  // Declared by the driver but not sent by any of its methods.
  const CmdCreateChar: uint8 := 0x4E
  const CmdSaveChar: uint8 := 0xC1
  const CmdLoadChar: uint8 := 0xC0

  /** A device: its size, whether the port is still open (`p != nil`), and
      everything written to the port so far. */
  datatype Device = Device(rows: uint8, cols: uint8, open: bool, log: seq<uint8>)

  datatype Error =
    | WritingToClosed            // "writing to closed deviced"
    | WrongCharCount(cells: int) // "wrong number of characters: expected %d"
    | CursorOutOfBounds          // "setting cursor out of bounds"

  /** `r` is what writing `frame` to `d` does: appended to the log of an open
      device; refused, with nothing changed, on a closed one. */
  predicate Sends(d: Device, r: (Device, Outcome<Error>), frame: seq<uint8>)
  {
    && r.0.rows == d.rows && r.0.cols == d.cols && r.0.open == d.open
    && (d.open ==> r.1 == Pass && r.0.log == d.log + frame)
    && (!d.open ==> r.1 == Fail(WritingToClosed) && r.0.log == d.log)
  }

  /** `Open`: the port is opened and the size frame is sent, columns first. */
  function Open(rows: uint8, cols: uint8): (r: Result<Device, Error>)
    ensures r == Success(Device(rows, cols, true, [0xFE, 0xD1, cols, rows]))
  {
    var (d, err) := Send(Device(rows, cols, true, []), CmdLcdSize, [cols, rows]);
    assert d.log == [0xFE, 0xD1, cols, rows];
    match err
    case Fail(e) => Failure(e)
    case Pass => Success(d)
  }

  /** `Close`: closes the port if it is open; closing again succeeds. */
  function Close(d: Device): (r: (Device, Outcome<Error>))
    ensures r == (d.(open := false), Pass)
  {
    if d.open then (d.(open := false), Pass) else (d, Pass)
  }

  /** `Write`: the whole buffer goes to the port of an open device. */
  function Write(d: Device, buf: seq<uint8>): (r: (Device, Result<nat, Error>))
    ensures d.open ==> r == (d.(log := d.log + buf), Success(|buf|))
    ensures !d.open ==> r == (d, Failure(WritingToClosed))
  {
    if !d.open then (d, Failure(WritingToClosed))
    else (d.(log := d.log + buf), Success(|buf|))
  }

  /** `send`: one frame, the prefix, the command byte, then the arguments. */
  function Send(d: Device, c: uint8, args: seq<uint8>): (r: (Device, Outcome<Error>))
    ensures Sends(d, r, [0xFE, c] + args)
  {
    var (d', res) := Write(d, [CmdPrefix, c] + args);
    (d', if res.Failure? then Fail(res.error) else Pass)
  }

  function Backlight(d: Device, on: bool): (r: (Device, Outcome<Error>))
    ensures Sends(d, r, [0xFE, if on then 0x42 else 0x46])
  {
    if on then Send(d, CmdBacklightOn, []) else Send(d, CmdBacklightOff, [])
  }

  /** `Brightnes` in the driver. */
  function Brightness(d: Device, level: uint8): (r: (Device, Outcome<Error>))
    ensures Sends(d, r, [0xFE, 0x99, level])
  {
    Send(d, CmdBrightness, [level])
  }

  function Contrast(d: Device, level: uint8): (r: (Device, Outcome<Error>))
    ensures Sends(d, r, [0xFE, 0x50, level])
  {
    Send(d, CmdContrast, [level])
  }

  function Autoscroll(d: Device, on: bool): (r: (Device, Outcome<Error>))
    ensures Sends(d, r, [0xFE, if on then 0x51 else 0x52])
  {
    if on then Send(d, CmdAutoscrollOn, []) else Send(d, CmdAutoscrollOff, [])
  }

  function Clear(d: Device): (r: (Device, Outcome<Error>))
    ensures Sends(d, r, [0xFE, 0x58])
  {
    Send(d, CmdClearScreen, [])
  }

  /** The splash may hold at most one character per cell; a longer one is
      refused before anything is written. */
  function ChangeSplash(d: Device, chars: seq<uint8>): (r: (Device, Outcome<Error>))
    ensures |chars| > d.rows as int * d.cols as int ==> r == (d, Fail(WrongCharCount(d.rows as int * d.cols as int)))
    ensures |chars| <= d.rows as int * d.cols as int ==> Sends(d, r, [0xFE, 0x40] + chars)
  {
    var cells := d.rows as int * d.cols as int;
    if |chars| > cells then (d, Fail(WrongCharCount(cells)))
    else Send(d, CmdChangeSplash, chars)
  }

  /** The cursor may be placed at column `cols` and row `rows` but not past
      them; an out-of-bounds position is refused before anything is written. */
  function CursorPosition(d: Device, x: uint8, y: uint8): (r: (Device, Outcome<Error>))
    ensures x > d.cols || y > d.rows ==> r == (d, Fail(CursorOutOfBounds))
    ensures x <= d.cols && y <= d.rows ==> Sends(d, r, [0xFE, 0x47, x, y])
  {
    if x > d.cols || y > d.rows then (d, Fail(CursorOutOfBounds))
    else Send(d, CmdCursorPosition, [x, y])
  }

  function Home(d: Device): (r: (Device, Outcome<Error>))
    ensures Sends(d, r, [0xFE, 0x48])
  {
    Send(d, CmdHome, [])
  }

  function CursorBack(d: Device): (r: (Device, Outcome<Error>))
    ensures Sends(d, r, [0xFE, 0x4C])
  {
    Send(d, CmdCursorBack, [])
  }

  function CursorForward(d: Device): (r: (Device, Outcome<Error>))
    ensures Sends(d, r, [0xFE, 0x4D])
  {
    Send(d, CmdCursorForward, [])
  }

  function Underline(d: Device, on: bool): (r: (Device, Outcome<Error>))
    ensures Sends(d, r, [0xFE, if on then 0x4A else 0x4B])
  {
    if on then Send(d, CmdUnderlineOn, []) else Send(d, CmdUnderlineOff, [])
  }

  function Block(d: Device, on: bool): (r: (Device, Outcome<Error>))
    ensures Sends(d, r, [0xFE, if on then 0x53 else 0x54])
  {
    if on then Send(d, CmdBlockOn, []) else Send(d, CmdBlockOff, [])
  }

  function Color(d: Device, red: uint8, green: uint8, blue: uint8): (r: (Device, Outcome<Error>))
    ensures Sends(d, r, [0xFE, 0xD0, red, green, blue])
  {
    Send(d, CmdBacklightColor, [red, green, blue])
  }

  // ---------------------------------------------------------------------
  // The protocol as data: every frame the driver can emit, a decoder for
  // a stream of them, and the proof that the driver's log decodes back to
  // the commands that were issued.
  // ---------------------------------------------------------------------

  /** One call of a driver method; `SetSize` is the frame `Open` sends. */
  datatype Command =
    | SetBacklight(on: bool)
    | SetBrightness(level: uint8)
    | SetContrast(level: uint8)
    | SetAutoscroll(on: bool)
    | ClearScreen
    | SetSplash(chars: seq<uint8>)
    | MoveCursor(x: uint8, y: uint8)
    | GoHome
    | StepBack
    | StepForward
    | SetUnderline(on: bool)
    | SetBlock(on: bool)
    | SetColor(red: uint8, green: uint8, blue: uint8)
    | SetSize(cols: uint8, rows: uint8)

  /** The command byte of a command. */
  function Code(c: Command): uint8
  {
    match c
    case SetBacklight(on) => if on then 0x42 else 0x46
    case SetBrightness(_) => 0x99
    case SetContrast(_) => 0x50
    case SetAutoscroll(on) => if on then 0x51 else 0x52
    case ClearScreen => 0x58
    case SetSplash(_) => 0x40
    case MoveCursor(_, _) => 0x47
    case GoHome => 0x48
    case StepBack => 0x4C
    case StepForward => 0x4D
    case SetUnderline(on) => if on then 0x4A else 0x4B
    case SetBlock(on) => if on then 0x53 else 0x54
    case SetColor(_, _, _) => 0xD0
    case SetSize(_, _) => 0xD1
  }

  /** The argument bytes of a command, in wire order. */
  function Args(c: Command): seq<uint8>
  {
    match c
    case SetBrightness(level) => [level]
    case SetContrast(level) => [level]
    case SetSplash(chars) => chars
    case MoveCursor(x, y) => [x, y]
    case SetColor(red, green, blue) => [red, green, blue]
    case SetSize(cols, rows) => [cols, rows]
    case _ => []
  }

  function Frame(c: Command): seq<uint8>
  {
    [0xFE, Code(c)] + Args(c)
  }

  /** The argument checks a device makes before sending. */
  predicate Accepts(d: Device, c: Command)
  {
    match c
    case SetSplash(chars) => |chars| <= d.rows as int * d.cols as int
    case MoveCursor(x, y) => x <= d.cols && y <= d.rows
    case _ => true
  }

  /** Dispatches a command to the driver method that issues it. */
  function Exec(d: Device, c: Command): (r: (Device, Outcome<Error>))
    ensures Accepts(d, c) ==> Sends(d, r, Frame(c))
    ensures !Accepts(d, c) ==> r.0 == d && r.1.Fail? && r.1.error != WritingToClosed
  {
    match c
    case SetBacklight(on) => Backlight(d, on)
    case SetBrightness(level) => Brightness(d, level)
    case SetContrast(level) => Contrast(d, level)
    case SetAutoscroll(on) => Autoscroll(d, on)
    case ClearScreen => Clear(d)
    case SetSplash(chars) => ChangeSplash(d, chars)
    case MoveCursor(x, y) => CursorPosition(d, x, y)
    case GoHome => Home(d)
    case StepBack => CursorBack(d)
    case StepForward => CursorForward(d)
    case SetUnderline(on) => Underline(d, on)
    case SetBlock(on) => Block(d, on)
    case SetColor(red, green, blue) => Color(d, red, green, blue)
    case SetSize(cols, rows) => Send(d, CmdLcdSize, [cols, rows])
  }

  /** The number of argument bytes after a fixed-length command byte; `None`
      for the splash (which runs to the end of the stream) and for bytes
      that are no command. */
  function Arity(code: uint8): Option<nat>
  {
    if code in {0x42, 0x46, 0x51, 0x52, 0x58, 0x48, 0x4C, 0x4D, 0x4A, 0x4B, 0x53, 0x54} then Some(0)
    else if code in {0x99, 0x50} then Some(1)
    else if code in {0x47, 0xD1} then Some(2)
    else if code == 0xD0 then Some(3)
    else None
  }

  function Parse(code: uint8, args: seq<uint8>): Command
    requires Arity(code) == Some(|args|)
  {
    if code == 0x42 || code == 0x46 then SetBacklight(code == 0x42)
    else if code == 0x99 then SetBrightness(args[0])
    else if code == 0x50 then SetContrast(args[0])
    else if code == 0x51 || code == 0x52 then SetAutoscroll(code == 0x51)
    else if code == 0x58 then ClearScreen
    else if code == 0x47 then MoveCursor(args[0], args[1])
    else if code == 0x48 then GoHome
    else if code == 0x4C then StepBack
    else if code == 0x4D then StepForward
    else if code == 0x4A || code == 0x4B then SetUnderline(code == 0x4A)
    else if code == 0x53 || code == 0x54 then SetBlock(code == 0x53)
    else if code == 0xD0 then SetColor(args[0], args[1], args[2])
    else SetSize(args[0], args[1])
  }

  /** Splits a byte stream into the commands it carries. A splash frame
      carries no length, so it takes the rest of the stream. */
  function Decode(bs: seq<uint8>): Option<seq<Command>>
    decreases |bs|
  {
    if bs == [] then Some([])
    else if |bs| < 2 || bs[0] != 0xFE then None
    else if bs[1] == 0x40 then Some([SetSplash(bs[2..])])
    else match Arity(bs[1])
      case None => None
      case Some(n) =>
        if |bs| < 2 + n then None
        else match Decode(bs[2 + n..])
          case None => None
          case Some(rest) => Some([Parse(bs[1], bs[2..2 + n])] + rest)
  }

  function EncodeAll(cs: seq<Command>): seq<uint8>
    decreases |cs|
  {
    if cs == [] then [] else Frame(cs[0]) + EncodeAll(cs[1..])
  }

  /** Only the last command may be a splash. */
  predicate SplashOnlyLast(cs: seq<Command>)
  {
    forall i :: 0 <= i < |cs| - 1 ==> !cs[i].SetSplash?
  }

  /** Every fixed-length frame is recognised by its command byte. */
  lemma ParseFrame(c: Command)
    requires !c.SetSplash?
    ensures Code(c) != 0x40
    ensures Arity(Code(c)) == Some(|Args(c)|)
    ensures Parse(Code(c), Args(c)) == c
  {
  }

  /** Decoding the frames of a command sequence gives the sequence back. */
  lemma {:induction false} DecodeEncode(cs: seq<Command>)
    requires SplashOnlyLast(cs)
    ensures Decode(EncodeAll(cs)) == Some(cs)
    decreases |cs|
  {
    if cs != [] {
      var c := cs[0];
      var bs := EncodeAll(cs);
      assert bs == [0xFE, Code(c)] + Args(c) + EncodeAll(cs[1..]);
      if c.SetSplash? {
        assert cs == [c];
        assert EncodeAll(cs[1..]) == [];
        assert bs[2..] == c.chars;
      } else {
        ParseFrame(c);
        var n := |Args(c)|;
        assert bs[2 + n..] == EncodeAll(cs[1..]);
        assert bs[2..2 + n] == Args(c);
        DecodeEncode(cs[1..]);
        assert [c] + cs[1..] == cs;
      }
    }
  }

  /** Issues the commands one after another, as a program calling the
      driver's methods would; an error does not stop the later calls. */
  function Session(d: Device, cs: seq<Command>): (r: (Device, seq<Outcome<Error>>))
    ensures r.0.rows == d.rows && r.0.cols == d.cols && r.0.open == d.open
    ensures |r.1| == |cs|
    decreases |cs|
  {
    if cs == [] then (d, [])
    else
      var (d1, o) := Exec(d, cs[0]);
      var (d2, os) := Session(d1, cs[1..]);
      (d2, [o] + os)
  }

  /** On an open device whose checks pass, every command succeeds and the
      log grows by exactly the commands' frames. */
  lemma {:induction false} SessionLog(d: Device, cs: seq<Command>)
    requires d.open
    requires forall i :: 0 <= i < |cs| ==> Accepts(d, cs[i])
    ensures Session(d, cs).0 == d.(log := d.log + EncodeAll(cs))
    ensures forall i :: 0 <= i < |cs| ==> Session(d, cs).1[i] == Pass
    decreases |cs|
  {
    if cs != [] {
      var d1 := Exec(d, cs[0]).0;
      assert Accepts(d, cs[0]);
      assert d1 == d.(log := d.log + Frame(cs[0]));
      assert forall i :: 0 <= i < |cs[1..]| ==> Accepts(d1, cs[1..][i]) by {
        forall i | 0 <= i < |cs[1..]|
          ensures Accepts(d1, cs[1..][i])
        {
          assert Accepts(d, cs[i + 1]);
        }
      }
      SessionLog(d1, cs[1..]);
      assert d.log + Frame(cs[0]) + EncodeAll(cs[1..]) == d.log + EncodeAll(cs);
    }
  }

  /** After `Close` nothing reaches the port: every command fails and the
      device is left as it was. */
  lemma {:induction false} ClosedSession(d: Device, cs: seq<Command>)
    requires !d.open
    ensures Session(d, cs).0 == d
    ensures forall i :: 0 <= i < |cs| ==> Session(d, cs).1[i].Fail?
    decreases |cs|
  {
    if cs != [] {
      assert Exec(d, cs[0]).0 == d;
      ClosedSession(d, cs[1..]);
    }
  }

  /** Closing twice is the same as closing once, and both report success. */
  lemma CloseIdempotent(d: Device)
    ensures Close(Close(d).0) == Close(d)
  {
  }

  /** The argument checks look only at the device's size. */
  lemma AcceptsBySize(d: Device, e: Device, c: Command)
    requires d.rows == e.rows && d.cols == e.cols
    ensures Accepts(d, c) == Accepts(e, c)
  {
  }

  /** The commands among `cs` that pass the device's argument checks, in
      order: the ones that reach the port of an open device. */
  function Passing(d: Device, cs: seq<Command>): (p: seq<Command>)
    ensures |p| <= |cs|
    ensures forall c :: c in p ==> c in cs && Accepts(d, c)
    decreases |cs|
  {
    if cs == [] then []
    else (if Accepts(d, cs[0]) then [cs[0]] else []) + Passing(d, cs[1..])
  }

  lemma {:induction false} PassingBySize(d: Device, e: Device, cs: seq<Command>)
    requires d.rows == e.rows && d.cols == e.cols
    ensures Passing(d, cs) == Passing(e, cs)
    decreases |cs|
  {
    if cs != [] {
      AcceptsBySize(d, e, cs[0]);
      PassingBySize(d, e, cs[1..]);
    }
  }

  lemma {:induction false} PassingLog(d: Device, cs: seq<Command>)
    requires d.open
    ensures Session(d, cs).0 == d.(log := d.log + EncodeAll(Passing(d, cs)))
    decreases |cs|
  {
    if cs != [] {
      var c := cs[0];
      var d1 := Exec(d, c).0;
      var rest := Passing(d, cs[1..]);
      PassingBySize(d1, d, cs[1..]);
      PassingLog(d1, cs[1..]);
      if Accepts(d, c) {
        assert d1 == d.(log := d.log + Frame(c));
        assert Passing(d, cs) == [c] + rest;
        assert ([c] + rest)[1..] == rest;
        assert d.log + Frame(c) + EncodeAll(rest) == d.log + EncodeAll(Passing(d, cs));
      } else {
        assert d1 == d;
        assert Passing(d, cs) == rest;
      }
    }
  }

  lemma {:induction false} PassingOutcomes(d: Device, cs: seq<Command>)
    requires d.open
    ensures forall i :: 0 <= i < |cs| ==> (Session(d, cs).1[i] == Pass <==> Accepts(d, cs[i]))
    decreases |cs|
  {
    if cs != [] {
      var d1 := Exec(d, cs[0]).0;
      PassingOutcomes(d1, cs[1..]);
      forall i | 0 <= i < |cs|
        ensures Session(d, cs).1[i] == Pass <==> Accepts(d, cs[i])
      {
        if i > 0 {
          assert Session(d, cs).1[i] == Session(d1, cs[1..]).1[i - 1];
          AcceptsBySize(d1, d, cs[i]);
        }
      }
    }
  }

  /** On an open device, a run of arbitrary commands succeeds exactly for
      the commands that pass their checks, and the log grows by exactly the
      frames of those commands, in order; refused commands leave no trace. */
  lemma SessionSendsPassing(d: Device, cs: seq<Command>)
    requires d.open
    ensures Session(d, cs).0 == d.(log := d.log + EncodeAll(Passing(d, cs)))
    ensures forall i :: 0 <= i < |cs| ==> (Session(d, cs).1[i] == Pass <==> Accepts(d, cs[i]))
  {
    PassingLog(d, cs);
    PassingOutcomes(d, cs);
  }

  /** A device whose log holds only its size frame ends up with a log that
      decodes to that frame followed by the issued commands that passed
      their checks. */
  lemma DecodeAfterSizeFrame(d: Device, cs: seq<Command>)
    requires d.open && d.log == Frame(SetSize(d.cols, d.rows))
    requires SplashOnlyLast(Passing(d, cs))
    ensures Decode(Session(d, cs).0.log) == Some([SetSize(d.cols, d.rows)] + Passing(d, cs))
  {
    SessionSendsPassing(d, cs);
    var p := Passing(d, cs);
    var all := [SetSize(d.cols, d.rows)] + p;
    assert all[0] == SetSize(d.cols, d.rows) && all[1..] == p;
    assert EncodeAll(all) == d.log + EncodeAll(p);
    assert SplashOnlyLast(all) by {
      forall i | 0 <= i < |all| - 1
        ensures !all[i].SetSplash?
      {
        if i > 0 {
          assert all[i] == p[i - 1];
        }
      }
    }
    DecodeEncode(all);
  }

  /** Everything an opened device writes decodes to the size frame followed
      by the issued commands that passed their checks (a splash, whose
      frame has no length, may only be the last of these). */
  lemma OpenSessionDecodes(rows: uint8, cols: uint8, cs: seq<Command>)
    requires SplashOnlyLast(Passing(Device(rows, cols, true, []), cs))
    ensures Decode(Session(Open(rows, cols).value, cs).0.log)
      == Some([SetSize(cols, rows)] + Passing(Device(rows, cols, true, []), cs))
  {
    var d := Open(rows, cols).value;
    assert d == Device(rows, cols, true, [0xFE, 0xD1, cols, rows]);
    assert d.log == Frame(SetSize(cols, rows));
    PassingBySize(Device(rows, cols, true, []), d, cs);
    DecodeAfterSizeFrame(d, cs);
  }
}

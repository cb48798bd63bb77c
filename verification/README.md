# go-misc cores in Dafny

A model of four small packages of the `go-misc` repository:

- **toggle** — a condition variable usable in a `select`: a goroutine
  connects a write channel `w` and a read channel `r`. Here the goroutine is
  an explicit state machine (`Idle`, `Pending(v, wOpen)`, `Done`); a send on
  `w`, `close(w)` and a receive on `r` are its transitions, and a receive that
  would block is reported as `Blocked`. A second, history-based semantics
  (`Spec`: the values written since the last read, whether `w` was closed)
  is proved to produce the same observations on every trace (`RunRefines`).
- **owned** — a goroutine that owns a value and applies the filters sent to
  it one at a time. A filter is a function `T -> (T, R)`: the new value and
  what it reports on its reply channel. The serving loop is proved to compute
  the left fold of the accepted filters; `Get`, `Set` and `CAS` are the
  package's filters.
- **lcd2usb** — the LCD2USB serial driver. The port is an append-only byte
  log; every command writes `0xFE`, a command byte and its arguments. The
  frames are also given as data (`Command`, `Frame`) with a decoder, and the
  log of an opened device is proved to decode to the size frame followed by
  exactly the issued commands that passed their argument checks, a splash
  only as the last of these (refused commands write nothing).
- **gjsfs** — an `http.FileSystem` that serves `x.js` by compiling `x.go`.
  Modelled: Go's `path.Ext`, the renaming in `Open`, `rewriteInfo.Name`, and
  the compile-once memoisation behind `Read` and `Seek`. The wrapped file
  system and the gopherjs build are parameters whose outcomes are supplied
  per call.

Files: `results.dfy` (Option / Result / Outcome), `toggle.dfy`, `owned.dfy`,
`lcd2usb.dfy`, `gjsfs.dfy`, one module each.

## Behaviour worth knowing

- Closing an idle toggle: the receive at toggle/toggle.go:16 returns
  `(nil, false)` and the select then still offers that `nil` on `r`, so the
  first read after the close yields `(nil, true)` and only the second
  `(nil, false)`, not the `(nil, false)` one might expect at once; the model
  follows the code (`CloseWhileIdle`).
- Under `Last`, the closing receive at toggle/toggle.go:23 yields `nil`, which
  lines 24-26 copy over the pending value. The doc comment (lines 5-6) says a
  value written before the close is still read; that holds under `First`
  (`FirstDrainsOnClose`) but not under `Last`, where the drain delivers
  `(nil, true)` (`LastLosesOnClose`). The model keeps the code's behaviour.
- `CursorPosition` accepts `x == cols` and `y == rows` (the checks are `>`).
- `ChangeSplash` refuses only splashes longer than `rows * cols`; shorter ones
  are sent as they are.

## Model

| member | source | states |
|---|---|---|
| Toggle.Create | toggle/toggle.go:9-16 | a new toggle keeps its policy, accepts writes and has nothing to read |
| Toggle.First | toggle/toggle.go:46-50 | `First` is the non-`last` policy, starting with nothing to read |
| Toggle.Last | toggle/toggle.go:52-56 | `Last` is the `last` policy, starting with nothing to read |
| Toggle.Write | toggle/toggle.go:15-29 | a send is accepted whenever `w` is open and leaves `w` open and something to read; in `Idle` the value becomes pending, while pending `First` keeps the old value and `Last` takes the new one |
| Toggle.Close | toggle/toggle.go:15-29 | closing leaves one read pending and no more writes; the pending value is `nil` after an idle close or under `Last`, and the old pending value under `First` |
| Toggle.Read | toggle/toggle.go:30-38 | a read blocks exactly in `Idle`; while pending it delivers the pending value with `ok` and goes to `Idle`, or to `Done` once `w` is closed; in `Done` it yields `(nil, false)` and changes nothing |
| Toggle.Run | toggle/toggle.go:12-41 | the goroutine serving a trace of sends, closes and receives; its ensures say only that a send on or close of a closed `w` (a panic) ends the run; its behaviour is stated by `RunRefines`, `WritesNeverBlock` and `DoneIsTerminal` |
| Toggle.RunRefines | toggle/toggle.go:12-41 | on every trace the goroutine yields the observations of the history-based semantics: first/last value written since the last read, drain once after close, then `(nil, false)` |
| Toggle.CreateRefines | toggle/toggle.go:9-44 | a fresh toggle behaves as that semantics from an empty history |
| Toggle.IdleReadBlocks | toggle/toggle.go:15-19 | with nothing written since the last read, a non-blocking read finds nothing and nothing changes |
| Toggle.WritesNeverBlock | toggle/toggle.go:3-4 | any number of sends in a row is accepted while `w` is open |
| Toggle.WriteThenRead | toggle/toggle.go:16-32 | a value written in `Idle` is delivered with `ok` by the next read, which returns to `Idle` |
| Toggle.SecondWritePolicy | toggle/toggle.go:23-26 | of two writes before a read, `First` delivers the first and `Last` the second |
| Toggle.FirstDrainsOnClose | toggle/toggle.go:23-38 | under `First` a value pending at the close is still delivered, then the toggle is done |
| Toggle.LastLosesOnClose | toggle/toggle.go:23-28 | under `Last` the close replaces the pending value by `nil`, which the drain delivers |
| Toggle.CloseWhileIdle | toggle/toggle.go:16-38 | closing an idle toggle gives one `(nil, true)` read and then `(nil, false)` |
| Toggle.DoneIsTerminal | toggle/toggle.go:36-38 | once done, every read yields `(nil, false)` |
| Toggle.FirstExample | toggle/toggle_test.go:9-38 | the package example: nothing to read, `First`, `Second` (not `Third`), `Fourth`, then `(nil, false)` |
| Owned.Serve | owned/owned.go:25-36 | the goroutine's final value is the left fold of the accepted filters over the initial value, and each filter's report is computed on the fold of the filters before it |
| Owned.FoldLeftAppend | owned/owned.go:29-31 | serving two batches in turn equals serving their concatenation: each filter sees all filters accepted before it |
| Owned.Get | owned/owned.go:41-49 | `Get` reports the held value and leaves it unchanged |
| Owned.Set | owned/owned.go:55-63 | `Set(to)` reports the previous value and the held value becomes `to` |
| Owned.Cas | owned/owned.go:67-78 | `CAS` reports true iff the held value equals `cmp`; then the value becomes the new one, otherwise it is unchanged |
| Owned.SetThenGet | owned/owned.go:41-63 | after `Set(to)`, `Get` observes `to` and a further `Set` reports `to` as the previous value |
| Owned.CasThenGet | owned/owned.go:67-76 | a `Get` after `CAS` sees the swapped-in value exactly when the swap happened |
| Owned.Example | owned/owned_test.go:5-38 | the package example ends holding 23, having observed 42 and reported the swap |
| Lcd2usb.Open | lcd2usb/main.go:43-59 | an opened device is open, has its size and has written exactly `FE D1 cols rows` |
| Lcd2usb.Close | lcd2usb/main.go:61-68 | closing always succeeds, leaves the device closed and writes nothing |
| Lcd2usb.Write | lcd2usb/main.go:70-76 | an open device appends the buffer and reports its length; a closed one fails and writes nothing |
| Lcd2usb.Send | lcd2usb/main.go:78-81 | a command appends `FE`, the command byte and the arguments in order, or fails with nothing written when closed |
| Lcd2usb.Backlight | lcd2usb/main.go:83-89 | sends `FE 42` when on and `FE 46` when off |
| Lcd2usb.Brightness | lcd2usb/main.go:91-93 | sends `FE 99 level` |
| Lcd2usb.Contrast | lcd2usb/main.go:95-97 | sends `FE 50 level` |
| Lcd2usb.Autoscroll | lcd2usb/main.go:99-105 | sends `FE 51` when on and `FE 52` when off |
| Lcd2usb.Clear | lcd2usb/main.go:107-109 | sends `FE 58` |
| Lcd2usb.ChangeSplash | lcd2usb/main.go:111-118 | fails with the cell count and writes nothing iff the splash is longer than `rows * cols`; otherwise sends `FE 40` and the splash |
| Lcd2usb.CursorPosition | lcd2usb/main.go:120-126 | fails and writes nothing iff `x > cols` or `y > rows`; otherwise sends `FE 47 x y` |
| Lcd2usb.Home | lcd2usb/main.go:128-130 | sends `FE 48` |
| Lcd2usb.CursorBack | lcd2usb/main.go:132-134 | sends `FE 4C` |
| Lcd2usb.CursorForward | lcd2usb/main.go:136-138 | sends `FE 4D` |
| Lcd2usb.Underline | lcd2usb/main.go:140-146 | sends `FE 4A` when on and `FE 4B` when off |
| Lcd2usb.Block | lcd2usb/main.go:148-154 | sends `FE 53` when on and `FE 54` when off |
| Lcd2usb.Color | lcd2usb/main.go:156-158 | sends `FE D0 r g b` |
| Lcd2usb.Exec | lcd2usb/main.go:12-35 | every driver method writes the frame the command table gives it when its checks pass, and otherwise fails with nothing written |
| Lcd2usb.DecodeEncode | lcd2usb/main.go:78-81 | the frames of any command sequence (splash only last) decode back to that sequence |
| Lcd2usb.SessionLog | lcd2usb/main.go:78-81 | on an open device, a run of accepted commands all succeed and append exactly their frames, in order |
| Lcd2usb.ClosedSession | lcd2usb/main.go:61-76 | after `Close` every command fails and the device, log included, is unchanged |
| Lcd2usb.CloseIdempotent | lcd2usb/main.go:61-68 | a second `Close` succeeds and changes nothing |
| Lcd2usb.SessionSendsPassing | lcd2usb/main.go:111-126 | on an open device, any run of commands succeeds exactly for the commands that pass their argument checks, and the log grows by exactly their frames, in order; refused commands leave no trace |
| Lcd2usb.OpenSessionDecodes | lcd2usb/main.go:55 | everything an opened device writes decodes to the size frame followed by the issued commands that passed their argument checks (a splash only as the last of these) |
| Gjsfs.Ext | gjsfs/main.go:113 | `path.Ext`: a suffix of the name that starts with the last `.` and holds no further `.` or `/`, or empty exactly when the final element has no `.` |
| Gjsfs.ExtJs | gjsfs/main.go:113-116 | the extension is `.js` iff the name ends in `.js` |
| Gjsfs.OpenedName | gjsfs/main.go:113-119 | other names are opened unchanged; a `.js` name is opened with its last two bytes replaced by `go`, same length, other bytes kept |
| Gjsfs.Name | gjsfs/main.go:83-86 | the name keeps all but its last two bytes, which become `js` |
| Gjsfs.NameInvertsOpen | gjsfs/main.go:83-86 | `Name` turns the name `Open` asked for back into the requested `.js` name |
| Gjsfs.Open | gjsfs/main.go:111-137 | errors of the wrapped `Open` are returned; a compiling file is returned iff the name is `.js`, the `.go` file opened, its stat succeeded and it is no directory, starting with nothing compiled and size 0; otherwise the wrapped file itself |
| Gjsfs.OpenJsServesGoFile | gjsfs/main.go:113-119 | opening `x.js` reaches the same underlying file as opening `x.go`, and the `.go` name itself is passed through without compiling |
| Gjsfs.Compile | gjsfs/main.go:30-47 | no build once compiled; a failed build changes nothing and returns its error; a successful one keeps the output and its size |
| Gjsfs.Ready | gjsfs/main.go:49-56 | a read (and a seek, lines 69-76) on a compiled file uses its compiled bytes without building; on an uncompiled file a successful build stores and serves its output, and a failed build returns its error and leaves the file uncompiled |
| Gjsfs.Reads | gjsfs/main.go:49-56 | a call fails only with the error of its own build outcome, and succeeds only if the file was compiled already or some build up to that call succeeded |
| Gjsfs.AtMostOneBuild | gjsfs/main.go:30-33 | a file is built successfully at most once, and never after it has been |
| Gjsfs.CompiledIsStable | gjsfs/main.go:31-33 | once compiled, every later call is served from the same compiled buffer (the `bytes.Reader` offset, which moves between reads, is not modelled) |
| Gjsfs.FirstSuccessWins | gjsfs/main.go:39-45 | failed builds are retried by the next read; the first successful build is what every later read sees (the read position of the `.go` file across retries is not modelled, see "Left out") |

## Left out

- Goroutines, channels, `select` and scheduling: each primitive is one sequential transition system, and the order of events in a trace stands for the order in which the runtime served them. A receive that would block is reported as `Blocked` instead of waiting.
- Toggle.Write: a send on a closed `w` and a second `close(w)` panic in Go; here `Write` and `Close` require an open `w`, and the trace function `Run` reports `Panicked` and stops.
- Owned: filters that panic or block (which wedge the goroutine in Go), and Go's run-time panic when `==` meets uncomparable dynamic types; the model requires a type with equality for `CAS`. The one-shot reply channels become the second half of a filter's result.
- Owned.Serve: the sequence of filters is the channel's content up to its close; what happens to sends after the close (a panic) is not modelled.
- Lcd2usb.Open: the failure of `sio.Open` and the port leaked on the failure path are not modelled; opening always succeeds.
- Lcd2usb: the baud rate, partial writes and errors from the port's `Write` and `Close`; the model writes the whole buffer. `CmdCreateChar`, `CmdSaveChar` and `CmdLoadChar` are declared by the driver but no method sends them.
- Lcd2usb.Decode: a splash frame carries no length on the wire, so the decoder lets it run to the end of the stream; the round trip is stated for command sequences whose only splash is the last command.
- Gjsfs: the gopherjs compiler itself (its outcome is a parameter), logging, the `bytes.Reader` semantics of `Read` and `Seek` (offset, whence, the buffer), `Readdir`, `file.Close`, `New`, and `Stat` with its unfinished size closure (lines 92-105).
- Gjsfs.Compile: the read position of the wrapped `.go` file is not modelled. gjsfs/main.go never rewinds it, so in Go a build retried after a failure reads the file from where the failed build stopped (usually its end); here every call's build outcome is a free parameter, which is why `FirstSuccessWins` admits a success after failures.
- Gjsfs.Name: `rewriteInfo.Name` panics on a name shorter than two bytes; the model requires at least two. Names are Dafny strings whose characters stand for bytes, so a name with non-ASCII characters is sliced by character where Go slices its UTF-8 bytes (Go gives "ajs" for "aé", the model "js"); the same holds for `Gjsfs.OpenedName` and `Gjsfs.Ext`.
- native, cachefs, ct, s and lazy are not part of this model: they are byte-order reinterpretation through `unsafe`, a wall-clock cache, a ticker wrapper, delegation to `sort.Sort`, and a memoised boolean thunk (`lazy.Bool`).

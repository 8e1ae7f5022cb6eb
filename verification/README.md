# kbd: verified model of the keyboard-state reader

`kbd` is a Go package for Linux. It reads raw `input_event` records from a keyboard device under
`/dev/input/` and keeps a map from key code to "is down". For every key change it also attempts
a non-blocking notification on a channel. A background goroutine does the reading; foreground callers query
`IsDown`, watch the channel, and drive `Start`, `Stop`, `Close` and `Err`.

This project models the sequential core of that package in Dafny and proves properties about it:

- `Bytes`, `Events`: the 24-byte little-endian record layout (16 opaque timestamp bytes, then
  kind as u16, code as u16 and value as u32). Decoding and encoding are proved to be inverse
  bijections. `ReadEvent` models one `binary.Read`.
- `KeyState`: the key map, one record at a time, as pure functions. A reference definition,
  `LastSetting`, gives what the last record writing a key set it to. `IsDown` after any record
  sequence is proved equal to that reference.
- `Mailbox`: a Go channel with a capacity, and the two non-blocking `select`s (drain, then send)
  used on it.
- `Reader`: the loop body (`Pass`, `Step`) and the loop as a fold (`Loop`) over a *script*. A
  script gives, for each pass, what the read returned, whether a consumer was blocked receiving,
  and what the flush returned.
- `Kbd`: the `Keyboard` class. Its fields are `keys`, `running`, `err` and `events`, plus
  `readerAlive` (the reader goroutine has not yet left its loop) and a ghost `trace` of store
  writes and notification attempts. `RunReader` is the goroutine body: a `while` loop proved
  against `Loop`. Terminal and file operations are inputs: the result (`None` for nil, or an
  error) that `CBreakMode`, `Restore`, `Flush`, `kbfile.Close` and `tty.Close` returned.

Concurrency is reduced to one sequential interleaving. `RunReader(script, …)` runs the goroutine
until it leaves its loop or the script runs out. If the script runs out, the goroutine is left
between passes, before its next `kb.running` check, and a later `RunReader` call resumes it there.
If `running` is false at that point, the resumed goroutine makes no further read and leaves its
loop. A foreground `Stop` between two such calls is how "the loop ends because `running` went
false" is modelled. The client methods
`PressRepeatRelease`, `StopTwice` and `ReadErrorEnds` show three such runs.

Where the package's own comments promise more than the code does, the model follows the code:

- `Event()` is documented as "a channel from which the most recently read KeyCode can be
  obtained" (main.go:161-162), and the receive before each send is commented as a "drain"
  (main.go:112). But the channel is created unbuffered (`make(chan KeyCode)`, main.go:89), so
  there is nothing to drain: the drain `select` never receives anything, because the reader is
  the only sender. A code reaches the consumer only if the consumer is already blocked in a
  receive; otherwise it is dropped and nothing is kept for a later receive. `Mailbox.Post`
  proves this. It also proves that a channel of capacity one would keep exactly the latest code,
  which is what the two comments describe.
- `Err()` is documented as returning "the error that ended the keyboard event reading loop"
  (main.go:149). End of stream is `io.EOF`, an error like any other: the loop stops, stops the
  terminal, and `Err()` returns `EOF`.
- `kb.err` is written only when the loop ends with an error, and `Start` never clears it. After a
  loop that ends through `Stop`, `Err()` returns whatever it returned before: `None` if no loop
  has failed yet.
- `Close` is documented as calling `Stop()` and closing the files (main.go:141), but it returns
  only the result of closing the terminal. A failed restore or a failed device-file close is
  lost, even when closing the terminal succeeds.
- Keys still down when the reader stops stay down in the map: nothing clears it.

## Model

| member | source | states |
|---|---|---|
| `Bytes.LeU16OfU16Le` | main.go:43-44 | A u16 written as two little-endian bytes reads back as the same value. |
| `Bytes.U16LeOfLeU16` | main.go:43-44 | Two bytes read as a little-endian u16 and written back give the same bytes. |
| `Bytes.LeU32OfU32Le` | main.go:45 | A u32 written as four little-endian bytes reads back as the same value. |
| `Bytes.U32LeOfLeU32` | main.go:45 | Four bytes read as a little-endian u32 and written back give the same bytes. |
| `Events.DecodeEncode` | main.go:41-46 | Decoding the 24-byte layout of a record gives back its timestamp, kind, code and value, for any 16-byte timestamp. |
| `Events.Decode` | main.go:100 | `binary.Read` of one record fills timestamp, kind, code and value from a 24-byte little-endian buffer. Re-encoding the result gives back exactly that buffer, so the layout is a bijection. |
| `Events.ReadEvent` | main.go:100-103 | A read error is passed on. No bytes gives `EOF`, a short record gives `UnexpectedEOF`, and otherwise the first 24 bytes are decoded (the decoded record re-encodes to exactly those bytes). |
| `KeyState.Lookup` | main.go:155-159 | A key reads as down only if it has an entry, which is Go's `false` zero value for a missing key. |
| `KeyState.Apply` | main.go:105-110 | A non-key record or a repeat leaves the map unchanged. Any other key record sets `keys[Code]` to `Value == press`, so release and unknown values mean up, and it adds only that key and leaves every other entry unchanged. |
| `KeyState.LookupIsLastSetting` | main.go:105-110 | After any record sequence, a key reads as what the last non-repeat key record for it set, and as before if there is no such record. |
| `KeyState.LookupFromEmpty` | main.go:155-159 | From the empty map the handle starts with, `IsDown(k)` holds exactly when the last non-repeat key record for `k` was a press. It is false if there is no such record. |
| `KeyState.LastSettingIsLastWrite` | main.go:109 | The reference `LastSetting` is `None` exactly when no record writes the key. Otherwise it is the value of a writing record after which no record writes the key. |
| `KeyState.RepeatKeepsStore` | main.go:106 | Adding a repeat record to any sequence leaves the final map, and so every `IsDown`, unchanged. |
| `KeyState.OnlyWritesMatter` | main.go:105-106 | Removing every non-key and repeat record from a sequence leaves the final map unchanged. |
| `KeyState.Writes` | main.go:105-106 | The filtered sequence holds exactly the store-writing records of the input: every one of them is kept and nothing else appears. |
| `KeyState.WritesAppend` | main.go:105-106 | Filtering keeps order: the writes of two sequences, one after the other, are the writes of their concatenation. |
| `Mailbox.Unbuffered` | main.go:89 | `make(chan KeyCode)` gives an open channel of capacity zero. |
| `Mailbox.Drain` | main.go:112-115 | The non-blocking receive takes the oldest buffered code if there is one, and otherwise changes nothing. Capacity and closedness are kept. |
| `Mailbox.TrySend` | main.go:116-119 | The non-blocking send is delivered exactly when a receiver waits on an empty buffer. Otherwise it is buffered, appended at the end, exactly when there is free space. Otherwise it is dropped. Only buffering changes the channel. |
| `Mailbox.Post` | main.go:112-119 | The drain-then-send attempt delivers exactly when a consumer is waiting. On the unbuffered channel it changes nothing and otherwise drops the code. With capacity one it would keep only the latest code. A queued code is always the last one buffered. |
| `Reader.Step` | main.go:105-121 | The map becomes `Apply` of the record. A state-changing record gives exactly two actions: the write `SetKey(code, value == press)`, then one notification attempt carrying its code. Any other record changes nothing and makes no attempt. The unbuffered channel is unchanged. |
| `Reader.Pass` | main.go:100-122 | One pass ends with the read's error if the read failed, and then it has no decode, no write and no flush. Otherwise it ends with the flush's result. |
| `Reader.Loop` | main.go:98-123 | The loop runs passes until the first error and stops there. It returns no error exactly when every pass of the script succeeded. |
| `Reader.LoopKeys` | main.go:98-123 | The map the loop leaves is the map after exactly the records it decoded, including one whose flush failed. |
| `Reader.LoopNotifies` | main.go:105-119 | The codes of the loop's notification attempts are, in order, the codes of the state-changing records it decoded, one attempt each. |
| `Reader.LoopWritesThenNotifies` | main.go:108-119 | Every notification attempt in the loop's trace comes right after the map write of the same key. None is ever queued: each is delivered or dropped. |
| `Reader.IsDownAfterLoop` | main.go:98-123 | Starting from the empty map, after the loop `IsDown(k)` holds exactly when the last non-repeat key record decoded for `k` was a press. |
| `Kbd.Keyboard.constructor` | main.go:63-65 | A new handle has an empty key map, is not running, has no error and no channel, and has no reader. |
| `Kbd.Keyboard.Start` | main.go:83-132 | A failed cbreak is returned, and `running`, the channel and the reader are left untouched. Otherwise it sets `running`, makes a fresh unbuffered open channel, launches the reader and returns nil. The map and `err` are kept. |
| `Kbd.Keyboard.Stop` | main.go:135-139 | It returns the restore's result and always clears `running`, so a second `Stop` is harmless. Nothing else changes. |
| `Kbd.Keyboard.Close` | main.go:142-147 | It stops, then returns only the terminal-close result. Nothing else changes. |
| `Kbd.Keyboard.Err` | main.go:150-152 | It returns the error that ended the reader, if there was one. |
| `Kbd.Keyboard.IsDown` | main.go:155-159 | It returns the map lookup, which is false for a key with no entry. |
| `Kbd.Keyboard.HandleRecord` | main.go:105-121 | The new map, channel and trace are those of `Step`. `running`, `err` and the reader are unchanged. |
| `Kbd.Keyboard.ReadPass` | main.go:100-122 | The new map and trace, and the error returned, are those of `Pass`. Nothing else changes. |
| `Kbd.Keyboard.ReadLoop` | main.go:98-123 | The `while running && err == nil` loop leaves the map, trace and error of `Loop`. `running`, `err` and the channel are unchanged. |
| `Kbd.Keyboard.RunReader` | main.go:95-129 | If `running` is already false, it closes the channel and ends, keeping `err`. Otherwise it runs `Loop`. On an error it closes the channel exactly once, clears `running` (through `Stop`), records the error and ends. With no error it is still alive with `running` set, the channel open and `err` unchanged. |

## Left out

- Goroutine scheduling, the `sync.Mutex` and channel runtime semantics are reduced to one
  sequential interleaving. The lock is a no-op. The unsynchronised accesses to `running` and
  `err` are data races that a sequential model cannot show.
- The terminal and device calls (`term.Open`, `os.Open`, `term.CBreakMode`, `tty.Restore`,
  `tty.Flush`, `kbfile.Close`, `tty.Close`) are inputs that succeed or fail. The terminal's mode
  itself is not tracked.
- The blocking of `binary.Read` is left out. So is the fact that `Stop` cannot interrupt a read
  already in progress: a script that runs out stands for a reader blocked in its read.
- In a `Data` read outcome, bytes beyond one record are not carried over to the next read. Each
  pass's outcome is given on its own.
- `Open` (main.go:61-77) is resource acquisition. Only its empty key map is modelled, by the
  constructor.
- `Event()` (main.go:163-165) only returns the `events` channel, which is the model's `events`
  field. The consumer's side of the channel is modelled only as whether a receive is pending
  when a code is sent.
- A second `Start` while a reader is still alive would run two goroutines. The model keeps one
  reader and does not capture the old goroutine closing the new channel.
- The key-code table and the event kinds other than `eventKEY` (main.go:177-269) are static data.
- The usage example in the package comment (main.go:8-30) is illustrative only.

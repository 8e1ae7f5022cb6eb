/** The Linux `input_event` record the keyboard device delivers, and the
    constants of it that the keyboard logic looks at. */
module Events {
  import opened Bytes
  import opened Outcomes

  /** A key identifier from the kernel's input-event-codes table. */
  type KeyCode = u16

  /** Size of one record on the wire, and of its leading timestamp. */
  const RecordSize: nat := 24
  const TimevalSize: nat := 16

  /** Values of a key record. */
  const Release: u32 := 0
  const Press: u32 := 1
  const Repeat: u32 := 2

  /** The kind of record that carries key state (EV_KEY). */
  const EventKey: u16 := 0x01

  /** The opaque timestamp: sixteen bytes the logic never interprets. */
  type Timeval = s: seq<u8> | |s| == TimevalSize witness seq(16, _ => 0)

  datatype InputEvent = InputEvent(timeval: Timeval, kind: u16, code: KeyCode, value: u32)

  /** The record laid out as the device writes it: the timestamp, then kind,
      code and value, each little-endian. */
  function Encode(e: InputEvent): (r: seq<u8>)
    ensures |r| == RecordSize
  {
    e.timeval + U16Le(e.kind) + U16Le(e.code) + U32Le(e.value)
  }

  /** The record read from a 24-byte buffer: kind at offset 16, code at 18,
      value at 20. Every buffer is the encoding of its decode, so the layout
      is a bijection. */
  function Decode(s: seq<u8>): (r: InputEvent)
    requires |s| == RecordSize
    ensures Encode(r) == s
  {
    U16LeOfLeU16(s, 16);
    U16LeOfLeU16(s, 18);
    U32LeOfLeU32(s, 20);
    assert s == s[..16] + s[16..18] + s[18..20] + s[20..24];
    InputEvent(s[..TimevalSize], LeU16(s, 16), LeU16(s, 18), LeU32(s, 20))
  }

  /** Decoding an encoded record gives back every field, whatever the timestamp. */
  lemma DecodeEncode(e: InputEvent)
    ensures Decode(Encode(e)) == e
  {
    var s := Encode(e);
    assert s[16..18] == U16Le(e.kind) && s[18..20] == U16Le(e.code) && s[20..24] == U32Le(e.value);
    LeU16OfU16Le(e.kind, s, 16);
    LeU16OfU16Le(e.code, s, 18);
    LeU32OfU32Le(e.value, s, 20);
  }

  /** What one read of the device returned: the bytes it delivered before the
      stream ended (of which one record's worth is consumed), or an error. */
  datatype ReadOutcome = Data(bytes: seq<u8>) | ReadFailed(error: Error)

  /** One `binary.Read` of a record: it fills the whole record or fails, with
      `io.EOF` when no byte was available and `io.ErrUnexpectedEOF` when the
      record was cut short. */
  function ReadEvent(r: ReadOutcome): (res: Result<InputEvent, Error>)
    ensures r.ReadFailed? ==> res == Failure(r.error)
    ensures r.Data? && |r.bytes| == 0 ==> res == Failure(EOF)
    ensures r.Data? && 0 < |r.bytes| < RecordSize ==> res == Failure(UnexpectedEOF)
    ensures r.Data? && RecordSize <= |r.bytes| ==>
      res.Success? && Encode(res.value) == r.bytes[..RecordSize]
  {
    match r
    case ReadFailed(e) => Failure(e)
    case Data(bytes) =>
      if |bytes| == 0 then Failure(EOF)
      else if |bytes| < RecordSize then Failure(UnexpectedEOF)
      else
        Success(Decode(bytes[..RecordSize]))
  }
}

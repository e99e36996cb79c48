/**
 * The value domain shared by the session classes, and a token-level view of the
 * DataOutput / DataInput streams that toData/fromData and toDelta/fromDelta use.
 *
 * A stream is a sequence of tokens, one per writeUTF / writeLong / writeInt /
 * writeObject call. Java object serialization behind writeObject is not modelled:
 * an object travels as one opaque Obj token.
 */
module DataStream {

  datatype Option<+T> = None | Some(value: T)

  /** What a failing operation throws. */
  datatype Failure =
    | IllegalArgument(message: string)  // IllegalArgumentException, with its message
    | EndOfStream                       // EOFException: the stream has nothing left
    | UnexpectedToken                   // the next item is not of the kind being read

  datatype Result<+T> = Ok(value: T) | Err(failure: Failure)

  /** A (never null) attribute value: a String, or some other serializable object. */
  datatype Value = Text(s: string) | Opaque(tag: int)

  /** What writeObject writes and readObject returns. */
  datatype Payload =
    | Null
    | Val(v: Value)
    | AttributesObject(attributes: map<string, Value>)  // a serialized GemFireSessionAttributes

  datatype Token = UTF(s: string) | Long(l: int) | Int(i: int) | Obj(p: Payload)

  /** readUTF */
  function ReadUTF(input: seq<Token>): (r: Result<(string, seq<Token>)>)
    ensures r.Ok? <==> |input| > 0 && input[0].UTF?
    ensures r.Ok? ==> input == [UTF(r.value.0)] + r.value.1
  {
    if |input| == 0 then Err(EndOfStream)
    else if input[0].UTF? then Ok((input[0].s, input[1..]))
    else Err(UnexpectedToken)
  }

  /** readLong */
  function ReadLong(input: seq<Token>): (r: Result<(int, seq<Token>)>)
    ensures r.Ok? <==> |input| > 0 && input[0].Long?
    ensures r.Ok? ==> input == [Long(r.value.0)] + r.value.1
  {
    if |input| == 0 then Err(EndOfStream)
    else if input[0].Long? then Ok((input[0].l, input[1..]))
    else Err(UnexpectedToken)
  }

  /** readInt */
  function ReadInt(input: seq<Token>): (r: Result<(int, seq<Token>)>)
    ensures r.Ok? <==> |input| > 0 && input[0].Int?
    ensures r.Ok? ==> input == [Int(r.value.0)] + r.value.1
  {
    if |input| == 0 then Err(EndOfStream)
    else if input[0].Int? then Ok((input[0].i, input[1..]))
    else Err(UnexpectedToken)
  }

  /** readObject */
  function ReadObject(input: seq<Token>): (r: Result<(Payload, seq<Token>)>)
    ensures r.Ok? <==> |input| > 0 && input[0].Obj?
    ensures r.Ok? ==> input == [Obj(r.value.0)] + r.value.1
  {
    if |input| == 0 then Err(EndOfStream)
    else if input[0].Obj? then Ok((input[0].p, input[1..]))
    else Err(UnexpectedToken)
  }
}

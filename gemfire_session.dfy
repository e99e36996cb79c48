/**
 * GemFireSession: the session value object the repository stores as one cache entry.
 * It owns a GemFireSessionAttributes store and a "delta" flag recording whether the
 * last-accessed time or the max-inactive interval changed since the last flush.
 *
 * The abstract state is an Image value; the class's methods are specified by the
 * Image functions, and expiry, ordering and the full and delta round trips are
 * lemmas about them. Clock readings and generated identifiers are parameters.
 */
module Sessions {
  import opened DataStream
  import opened JavaText
  import opened Attributes

  /** FindByIndexNameSessionRepository.PRINCIPAL_NAME_INDEX_NAME: the attribute that
      holds the principal name. */
  const PRINCIPAL_NAME_INDEX_NAME: string :=
    "org.springframework.session.FindByIndexNameSessionRepository.PRINCIPAL_NAME_INDEX_NAME"

  /** What is read from a session of another implementation (an ExpiringSession). */
  datatype SessionView = SessionView(
    id: string,
    creationTime: int,
    lastAccessedTime: int,
    maxInactiveIntervalInSeconds: int,
    attributes: map<string, Value>)

  /** The state of a GemFireSession. */
  datatype Image = Image(
    id: string,
    creationTime: int,
    lastAccessedTime: int,
    maxInactiveIntervalInSeconds: int,
    delta: bool,
    store: Store)

  /** new GemFireSession(id), at clock reading now. */
  function NewSession(id: string, now: int): Result<Image> {
    if HasText(id) then Ok(Image(id, now, now, 0, false, EmptyStore))
    else Err(IllegalArgument("ID must be specified"))
  }

  /** new GemFireSession(session): the copy takes the source's id, times, interval and
      attributes (each copied in through setAttribute); its own delta flag starts clear. */
  function CopyOf(source: Option<SessionView>): Result<Image> {
    match source
    case None => Err(IllegalArgument("The ExpiringSession to copy cannot be null"))
    case Some(v) =>
      Ok(Image(v.id, v.creationTime, v.lastAccessedTime, v.maxInactiveIntervalInSeconds,
               false, Merge(EmptyStore, v.attributes)))
  }

  /** setLastAccessedTime: the flag is raised when the value changes. */
  function TouchedAt(img: Image, time: int): Image {
    img.(lastAccessedTime := time, delta := img.delta || img.lastAccessedTime != time)
  }

  /** setMaxInactiveIntervalInSeconds: the flag is raised when the value changes. */
  function WithMaxInactiveInterval(img: Image, interval: int): Image {
    img.(maxInactiveIntervalInSeconds := interval,
         delta := img.delta || img.maxInactiveIntervalInSeconds != interval)
  }

  /** create(maxInactiveIntervalInSeconds): a new session under a generated id, then the
      interval set through its setter. */
  function Created(generatedId: string, now: int, interval: int): Result<Image> {
    match NewSession(generatedId, now)
    case Err(f) => Err(f)
    case Ok(img) => Ok(WithMaxInactiveInterval(img, interval))
  }

  function AttributeOf(img: Image, name: string): Option<Value> {
    Lookup(img.store.attributes, name)
  }

  function WithAttribute(img: Image, name: string, value: Option<Value>): Image {
    img.(store := Set(img.store, name, value))
  }

  /** getPrincipalName: the principal attribute, when it holds a String. */
  function Principal(img: Image): Option<string> {
    match AttributeOf(img, PRINCIPAL_NAME_INDEX_NAME)
    case Some(Text(s)) => Some(s)
    case _ => None
  }

  /** setPrincipalName: a null name removes the principal attribute. */
  function WithPrincipal(img: Image, name: Option<string>): Image {
    WithAttribute(img, PRINCIPAL_NAME_INDEX_NAME, if name.Some? then Some(Text(name.value)) else None)
  }

  /** hasDelta: the session's own flag, or a change in its attributes. */
  predicate ImageHasDelta(img: Image) {
    img.delta || StoreHasDelta(img.store)
  }

  /** isExpired(now): a negative interval never expires; otherwise the session has
      expired once the interval, in milliseconds, has passed since the last access. */
  predicate ExpiredAt(img: Image, now: int) {
    img.maxInactiveIntervalInSeconds >= 0
    && now - img.maxInactiveIntervalInSeconds * 1000 >= img.lastAccessedTime
  }

  /** compareTo: Long.compareTo of the creation times. */
  function Compare(a: Image, b: Image): int {
    if a.creationTime < b.creationTime then -1
    else if a.creationTime == b.creationTime then 0
    else 1
  }

  /** equals: sessions are equal exactly when their ids are. */
  predicate SameSession(a: Image, b: Image) {
    a.id == b.id
  }

  // ---------------------------------------------------------------------------
  // Full serialization

  /** The principal's part of toData: its length and the name when it has text, a zero
      length otherwise. */
  function PrincipalTokens(name: Option<string>): seq<Token> {
    if name.Some? && HasText(name.value) then [Int(|name.value|), UTF(name.value)] else [Int(0)]
  }

  /** toData: id, creation time, last-accessed time, interval, principal, attributes. */
  function SessionData(img: Image): seq<Token> {
    [UTF(img.id), Long(img.creationTime), Long(img.lastAccessedTime),
     Int(img.maxInactiveIntervalInSeconds)]
    + PrincipalTokens(Principal(img))
    + [Obj(AttributesObject(img.store.attributes))]
  }

  /** The fields fromData reads. */
  datatype Record = Record(
    id: string,
    creationTime: int,
    lastAccessedTime: int,
    maxInactiveIntervalInSeconds: int,
    principal: Option<string>,
    attributes: map<string, Value>)

  /** The principal's part of fromData: a length, then the name when the length is positive. */
  function ReadPrincipal(input: seq<Token>): Result<(Option<string>, seq<Token>)> {
    match ReadInt(input)
    case Err(f) => Err(f)
    case Ok((length, rest)) =>
      if length > 0 then
        match ReadUTF(rest)
        case Err(f) => Err(f)
        case Ok((name, afterName)) => Ok((Some(name), afterName))
      else Ok((None, rest))
  }

  /** readObject of the attributes: anything but a serialized attribute store fails. */
  function ReadAttributesObject(input: seq<Token>): Result<(map<string, Value>, seq<Token>)> {
    match ReadObject(input)
    case Err(f) => Err(f)
    case Ok((p, rest)) =>
      if p.AttributesObject? then Ok((p.attributes, rest)) else Err(UnexpectedToken)
  }

  function ReadSessionData(input: seq<Token>): Result<(Record, seq<Token>)> {
    match ReadUTF(input)
    case Err(f) => Err(f)
    case Ok((id, r1)) =>
      match ReadLong(r1)
      case Err(f) => Err(f)
      case Ok((created, r2)) =>
        match ReadLong(r2)
        case Err(f) => Err(f)
        case Ok((accessed, r3)) =>
          match ReadInt(r3)
          case Err(f) => Err(f)
          case Ok((interval, r4)) =>
            match ReadPrincipal(r4)
            case Err(f) => Err(f)
            case Ok((principal, r5)) =>
              match ReadAttributesObject(r5)
              case Err(f) => Err(f)
              case Ok((attributes, rest)) =>
                Ok((Record(id, created, accessed, interval, principal, attributes), rest))
  }

  /** fromData's effect: id and creation time assigned, the times set through their
      setters, the principal set when one was read, the attributes copied in, and the
      session's own flag cleared. */
  function ApplyData(img: Image, rec: Record): Image {
    var timed := WithMaxInactiveInterval(
      TouchedAt(img.(id := rec.id, creationTime := rec.creationTime), rec.lastAccessedTime),
      rec.maxInactiveIntervalInSeconds);
    var named := if rec.principal.Some? then WithPrincipal(timed, rec.principal) else timed;
    named.(store := Merge(named.store, rec.attributes), delta := false)
  }

  // ---------------------------------------------------------------------------
  // Delta serialization

  /** toDelta: last-accessed time, interval, then the attribute delta. */
  function SessionDelta(img: Image, order: seq<string>): seq<Token> {
    [Long(img.lastAccessedTime), Int(img.maxInactiveIntervalInSeconds)] + DeltaData(img.store, order)
  }

  /** The state after toDelta: nothing left to flush. */
  function Flushed(img: Image): Image {
    img.(delta := false, store := Store(img.store.attributes, {}))
  }

  datatype DeltaRecord = DeltaRecord(
    lastAccessedTime: int,
    maxInactiveIntervalInSeconds: int,
    pairs: seq<(string, Option<Value>)>)

  function ReadSessionDelta(input: seq<Token>): Result<(DeltaRecord, seq<Token>)> {
    match ReadLong(input)
    case Err(f) => Err(f)
    case Ok((accessed, r1)) =>
      match ReadInt(r1)
      case Err(f) => Err(f)
      case Ok((interval, r2)) =>
        match ReadCounted(r2)
        case Err(f) => Err(f)
        case Ok((pairs, rest)) => Ok((DeltaRecord(accessed, interval, pairs), rest))
  }

  /** fromDelta's effect: the times replaced, the attribute delta applied, the flag cleared. */
  function ApplyDelta(img: Image, rec: DeltaRecord): Image {
    img.(lastAccessedTime := rec.lastAccessedTime,
         maxInactiveIntervalInSeconds := rec.maxInactiveIntervalInSeconds,
         store := DeltaImage(img.store, rec.pairs),
         delta := false)
  }

  // ---------------------------------------------------------------------------
  // Properties

  /** Construction rejects a blank id with "ID must be specified"; otherwise the new
      session was last accessed when it was created, has interval 0, no attributes,
      and nothing to flush. */
  lemma NewSessionShape(id: string, now: int)
    ensures NewSession(id, now).Ok? <==> HasText(id)
    ensures NewSession(id, now).Err? ==>
      NewSession(id, now).failure == IllegalArgument("ID must be specified")
    ensures NewSession(id, now).Ok? ==>
      var img := NewSession(id, now).value;
      && img.id == id && img.creationTime == now && img.lastAccessedTime == img.creationTime
      && img.maxInactiveIntervalInSeconds == 0 && img.store.attributes == map[]
      && !ImageHasDelta(img)
  {
  }

  /** create(interval): last access equals creation, the interval is the one given,
      there are no attributes, and a non-default interval is a pending change. */
  lemma CreatedShape(generatedId: string, now: int, interval: int)
    requires HasText(generatedId)
    ensures Created(generatedId, now, interval).Ok?
    ensures
      var img := Created(generatedId, now, interval).value;
      && img.id == generatedId && img.creationTime == now
      && img.lastAccessedTime == img.creationTime
      && img.maxInactiveIntervalInSeconds == interval && img.store.attributes == map[]
      && (ImageHasDelta(img) <==> interval != 0)
  {
  }

  /** The copy constructor fails only on a null source, with its message; a copy has the
      source's id, times, interval and attributes, and its own flag is clear. */
  lemma CopyOfShape(source: Option<SessionView>)
    ensures CopyOf(source).Err? <==> source.None?
    ensures source.None? ==>
      CopyOf(source).failure == IllegalArgument("The ExpiringSession to copy cannot be null")
    ensures source.Some? ==>
      var img := CopyOf(source).value;
      && img.id == source.value.id
      && img.creationTime == source.value.creationTime
      && img.lastAccessedTime == source.value.lastAccessedTime
      && img.maxInactiveIntervalInSeconds == source.value.maxInactiveIntervalInSeconds
      && img.store.attributes == source.value.attributes
      && !img.delta
  {
  }

  /** The setters raise the flag exactly when they change a value, and never lower it. */
  lemma SettersTrackChanges(img: Image, time: int, interval: int)
    ensures TouchedAt(img, time).lastAccessedTime == time
    ensures TouchedAt(img, time).delta <==> img.delta || img.lastAccessedTime != time
    ensures WithMaxInactiveInterval(img, interval).maxInactiveIntervalInSeconds == interval
    ensures WithMaxInactiveInterval(img, interval).delta <==>
      img.delta || img.maxInactiveIntervalInSeconds != interval
    ensures ImageHasDelta(img) ==> ImageHasDelta(TouchedAt(img, time))
    ensures ImageHasDelta(img) ==> ImageHasDelta(WithMaxInactiveInterval(img, interval))
  {
  }

  /** A negative interval never expires, whatever the clock says. */
  lemma NegativeIntervalNeverExpires(img: Image, now: int)
    requires img.maxInactiveIntervalInSeconds < 0
    ensures !ExpiredAt(img, now)
  {
  }

  /** With a non-negative interval, expiry is exactly: at least the interval, in
      milliseconds, has passed since the last access. */
  lemma ExpiryThreshold(img: Image, now: int)
    requires img.maxInactiveIntervalInSeconds >= 0
    ensures ExpiredAt(img, now) <==>
      now - img.lastAccessedTime >= img.maxInactiveIntervalInSeconds * 1000
  {
  }

  /** Once expired, a session stays expired as the clock advances. */
  lemma ExpiryIsMonotone(img: Image, earlier: int, later: int)
    requires earlier <= later && ExpiredAt(img, earlier)
    ensures ExpiredAt(img, later)
  {
  }

  /** A session touched now is not expired now unless its interval is zero. */
  lemma TouchRenews(img: Image, now: int)
    ensures ExpiredAt(TouchedAt(img, now), now) <==> img.maxInactiveIntervalInSeconds == 0
  {
  }

  /** The principal name is the principal attribute: setting either is seen by both,
      clearing it removes the attribute, and no other attribute is touched. */
  lemma PrincipalIsAttribute(img: Image, name: Option<string>, text: string, other: string)
    requires other != PRINCIPAL_NAME_INDEX_NAME
    ensures Principal(WithPrincipal(img, name)) == name
    ensures AttributeOf(WithPrincipal(img, name), PRINCIPAL_NAME_INDEX_NAME)
         == if name.Some? then Some(Text(name.value)) else None
    ensures AttributeOf(WithPrincipal(img, name), other) == AttributeOf(img, other)
    ensures Principal(WithAttribute(img, PRINCIPAL_NAME_INDEX_NAME, Some(Text(text)))) == Some(text)
  {
    SetTracksChanges(img.store, PRINCIPAL_NAME_INDEX_NAME,
                     if name.Some? then Some(Text(name.value)) else None);
  }

  /** compareTo is a total preorder on creation times. */
  lemma CompareIsOrdering(a: Image, b: Image, c: Image)
    ensures Compare(a, b) == -Compare(b, a)
    ensures Compare(a, b) == 0 <==> a.creationTime == b.creationTime
    ensures Compare(a, b) < 0 <==> a.creationTime < b.creationTime
    ensures Compare(a, b) <= 0 && Compare(b, c) <= 0 ==> Compare(a, c) <= 0
  {
  }

  /** equals ignores everything but the id, so ordering and equality disagree: two
      sessions with one id and different creation times are equal yet not tied. */
  lemma OrderingIsInconsistentWithEquals()
    ensures exists a: Image, b: Image :: SameSession(a, b) && Compare(a, b) != 0
  {
    var a := Image("1", 1, 1, 0, false, EmptyStore);
    var b := Image("1", 2, 2, 0, false, EmptyStore);
    assert SameSession(a, b) && Compare(a, b) != 0;
  }

  lemma ReadPrincipalOfTokens(name: Option<string>, rest: seq<Token>)
    ensures ReadPrincipal(PrincipalTokens(name) + rest)
         == Ok((if name.Some? && HasText(name.value) then name else None, rest))
  {
    if name.Some? && HasText(name.value) {
      HasTextMeansNonEmpty(name.value);
      var tokens := PrincipalTokens(name) + rest;
      assert tokens == [Int(|name.value|)] + ([UTF(name.value)] + rest);
      assert ReadUTF([UTF(name.value)] + rest) == Ok((name.value, rest));
    } else {
      assert PrincipalTokens(name) + rest == [Int(0)] + rest;
    }
  }

  /** The record a reader gets back from toData's output: the principal only when it
      has text. */
  function WrittenRecord(writer: Image): Record {
    var principal := Principal(writer);
    Record(writer.id, writer.creationTime, writer.lastAccessedTime,
           writer.maxInactiveIntervalInSeconds,
           if principal.Some? && HasText(principal.value) then principal else None,
           writer.store.attributes)
  }

  lemma ReadSessionDataOf(writer: Image, rest: seq<Token>)
    ensures ReadSessionData(SessionData(writer) + rest) == Ok((WrittenRecord(writer), rest))
  {
    var obj := [Obj(AttributesObject(writer.store.attributes))] + rest;
    var tail := PrincipalTokens(Principal(writer)) + obj;
    var data := SessionData(writer) + rest;
    assert data == [UTF(writer.id), Long(writer.creationTime), Long(writer.lastAccessedTime),
                    Int(writer.maxInactiveIntervalInSeconds)] + tail;
    assert data[1..] == [Long(writer.creationTime), Long(writer.lastAccessedTime),
                         Int(writer.maxInactiveIntervalInSeconds)] + tail;
    assert data[2..] == [Long(writer.lastAccessedTime), Int(writer.maxInactiveIntervalInSeconds)] + tail;
    assert data[3..] == [Int(writer.maxInactiveIntervalInSeconds)] + tail;
    assert data[4..] == tail;
    ReadPrincipalOfTokens(Principal(writer), obj);
    assert ReadAttributesObject(obj) == Ok((writer.store.attributes, rest));
  }

  /** Applying the written record sets the writer's attributes over the reader's: a
      principal read back is the writer's principal attribute already. */
  lemma ApplyWrittenRecord(writer: Image, reader: Image)
    ensures ApplyData(reader, WrittenRecord(writer)).store.attributes
         == reader.store.attributes + writer.store.attributes
  {
    var rec := WrittenRecord(writer);
    var m := reader.store.attributes;
    var w := writer.store.attributes;
    if rec.principal.Some? {
      assert PRINCIPAL_NAME_INDEX_NAME in w && w[PRINCIPAL_NAME_INDEX_NAME] == Text(rec.principal.value);
      assert m[PRINCIPAL_NAME_INDEX_NAME := Text(rec.principal.value)] + w == m + w;
    }
  }

  /** Full round trip: fromData of what toData wrote gives the writer's id, creation
      time, last-accessed time, interval and attributes (on top of whatever attributes
      the reader held) and leaves the reader's own flag clear; a reader without
      attributes of its own ends up with exactly the writer's attributes and principal. */
  lemma SessionDataRoundTrip(writer: Image, reader: Image, rest: seq<Token>)
    ensures ReadSessionData(SessionData(writer) + rest).Ok?
    ensures ReadSessionData(SessionData(writer) + rest).value.1 == rest
    ensures
      var img := ApplyData(reader, ReadSessionData(SessionData(writer) + rest).value.0);
      && img.id == writer.id
      && img.creationTime == writer.creationTime
      && img.lastAccessedTime == writer.lastAccessedTime
      && img.maxInactiveIntervalInSeconds == writer.maxInactiveIntervalInSeconds
      && img.store.attributes == reader.store.attributes + writer.store.attributes
      && !img.delta
      && SameSession(img, writer)
    ensures reader.store.attributes == map[] ==>
      var img := ApplyData(reader, ReadSessionData(SessionData(writer) + rest).value.0);
      img.store.attributes == writer.store.attributes && Principal(img) == Principal(writer)
  {
    ReadSessionDataOf(writer, rest);
    ApplyWrittenRecord(writer, reader);
    if reader.store.attributes == map[] {
      assert reader.store.attributes + writer.store.attributes == writer.store.attributes;
    }
  }

  /** Delta round trip: a reader that agrees with the writer outside the writer's
      changes gets the writer's times and attributes from fromDelta of what toDelta
      wrote; the names received stop being the reader's changes and its flag is clear. */
  lemma SessionDeltaRoundTrip(writer: Image, reader: Image, order: seq<string>, rest: seq<Token>)
    requires Enumerates(order, writer.store.deltas)
    requires Synced(writer.store, reader.store.attributes)
    ensures ReadSessionDelta(SessionDelta(writer, order) + rest).Ok?
    ensures ReadSessionDelta(SessionDelta(writer, order) + rest).value.1 == rest
    ensures
      var img := ApplyDelta(reader, ReadSessionDelta(SessionDelta(writer, order) + rest).value.0);
      && img.id == reader.id
      && img.creationTime == reader.creationTime
      && img.lastAccessedTime == writer.lastAccessedTime
      && img.maxInactiveIntervalInSeconds == writer.maxInactiveIntervalInSeconds
      && img.store == Store(writer.store.attributes, reader.store.deltas - writer.store.deltas)
      && !img.delta
  {
    var data := SessionDelta(writer, order) + rest;
    var tail := DeltaData(writer.store, order) + rest;
    assert data == [Long(writer.lastAccessedTime), Int(writer.maxInactiveIntervalInSeconds)] + tail;
    assert data[1..] == [Int(writer.maxInactiveIntervalInSeconds)] + tail;
    assert data[2..] == tail;
    DeltaRoundTrip(writer.store, reader.store, order, rest);
  }

  /** After toDelta nothing is pending, and the next toDelta sends no attributes. */
  lemma FlushLeavesNoDelta(img: Image, order: seq<string>)
    requires Enumerates(order, {})
    ensures !ImageHasDelta(Flushed(img))
    ensures SessionDelta(Flushed(img), order)
         == [Long(img.lastAccessedTime), Int(img.maxInactiveIntervalInSeconds), Int(0)]
  {
  }

  /** The argument of from(..): a GemFireSession, another kind of session, or null. */
  datatype SessionSource = Gem(session: GemFireSession) | Other(view: SessionView) | NullSource

  class GemFireSession {
    var id: string
    var creationTime: int
    var lastAccessedTime: int
    var maxInactiveIntervalInSeconds: int
    var delta: bool
    const attributes: GemFireSessionAttributes

    function State(): Image
      reads this, attributes
    {
      Image(id, creationTime, lastAccessedTime, maxInactiveIntervalInSeconds, delta, attributes.State())
    }

    /** The constructor proper; New is the checked entry point. */
    constructor (sessionId: string, now: int)
      requires HasText(sessionId)
      ensures State() == NewSession(sessionId, now).value
      ensures fresh(attributes)
    {
      id := sessionId;
      creationTime := now;
      lastAccessedTime := now;
      maxInactiveIntervalInSeconds := 0;
      delta := false;
      attributes := new GemFireSessionAttributes();
    }

    /** The copy constructor proper; CopyFrom is the checked entry point. */
    constructor Copy(source: SessionView)
      ensures State() == CopyOf(Some(source)).value
      ensures fresh(attributes)
    {
      id := source.id;
      creationTime := source.creationTime;
      lastAccessedTime := source.lastAccessedTime;
      maxInactiveIntervalInSeconds := source.maxInactiveIntervalInSeconds;
      delta := false;
      var store := new GemFireSessionAttributes();
      attributes := store;
      new;
      attributes.From(source.attributes);
    }

    /** new GemFireSession(id), the blank id failing. */
    static method New(sessionId: string, now: int) returns (r: Result<GemFireSession>)
      ensures r.Ok? <==> NewSession(sessionId, now).Ok?
      ensures r.Err? ==> r.failure == NewSession(sessionId, now).failure
      ensures r.Ok? ==> fresh(r.value) && fresh(r.value.attributes)
                        && r.value.State() == NewSession(sessionId, now).value
    {
      if !HasText(sessionId) {
        return Err(IllegalArgument("ID must be specified"));
      }
      var s := new GemFireSession(sessionId, now);
      return Ok(s);
    }

    /** new GemFireSession(session), the null session failing. */
    static method CopyFrom(source: Option<SessionView>) returns (r: Result<GemFireSession>)
      ensures r.Ok? <==> CopyOf(source).Ok?
      ensures r.Err? ==> r.failure == CopyOf(source).failure
      ensures r.Ok? ==> fresh(r.value) && fresh(r.value.attributes)
                        && r.value.State() == CopyOf(source).value
    {
      if source.None? {
        return Err(IllegalArgument("The ExpiringSession to copy cannot be null"));
      }
      var s := new GemFireSession.Copy(source.value);
      return Ok(s);
    }

    /** create(interval), under an identifier generated by the caller (a random UUID). */
    static method Create(generatedId: string, now: int, interval: int) returns (s: GemFireSession)
      requires HasText(generatedId)
      ensures fresh(s) && fresh(s.attributes)
      ensures s.State() == Created(generatedId, now, interval).value
    {
      s := new GemFireSession(generatedId, now);
      s.SetMaxInactiveIntervalInSeconds(interval);
    }

    /** from(session): a GemFireSession is returned as it is; another session is copied. */
    static method From(source: SessionSource) returns (r: Result<GemFireSession>)
      ensures source.Gem? ==> r == Ok(source.session)
      ensures source.NullSource? ==> r.Err? && r.failure == CopyOf(None).failure
      ensures source.Other? ==> r.Ok? && fresh(r.value) && fresh(r.value.attributes)
                                && r.value.State() == CopyOf(Some(source.view)).value
    {
      match source {
        case Gem(session) =>
          return Ok(session);
        case NullSource =>
          r := CopyFrom(None);
        case Other(view) =>
          r := CopyFrom(Some(view));
      }
    }

    method SetLastAccessedTime(time: int)
      modifies this
      ensures State() == TouchedAt(old(State()), time)
    {
      delta := delta || lastAccessedTime != time;
      lastAccessedTime := time;
    }

    method SetMaxInactiveIntervalInSeconds(interval: int)
      modifies this
      ensures State() == WithMaxInactiveInterval(old(State()), interval)
    {
      delta := delta || maxInactiveIntervalInSeconds != interval;
      maxInactiveIntervalInSeconds := interval;
    }

    function GetAttribute(name: string): Option<Value>
      reads this, attributes
    {
      attributes.GetAttribute(name)
    }

    function GetAttributeNames(): set<string>
      reads this, attributes
    {
      attributes.GetAttributeNames()
    }

    method SetAttribute(name: string, value: Option<Value>)
      modifies attributes
      ensures State() == WithAttribute(old(State()), name, value)
    {
      var _ := attributes.SetAttribute(name, value);
    }

    method RemoveAttribute(name: string)
      modifies attributes
      ensures State() == WithAttribute(old(State()), name, None)
    {
      var _ := attributes.RemoveAttribute(name);
    }

    function GetPrincipalName(): Option<string>
      reads this, attributes
    {
      Principal(State())
    }

    method SetPrincipalName(name: Option<string>)
      modifies attributes
      ensures State() == WithPrincipal(old(State()), name)
    {
      SetAttribute(PRINCIPAL_NAME_INDEX_NAME, if name.Some? then Some(Text(name.value)) else None);
    }

    predicate IsExpired(now: int)
      reads this, attributes
    {
      ExpiredAt(State(), now)
    }

    predicate HasDelta()
      reads this, attributes
    {
      ImageHasDelta(State())
    }

    function CompareTo(other: GemFireSession): int
      reads this, attributes, other, other.attributes
    {
      Compare(State(), other.State())
    }

    predicate Equals(other: GemFireSession)
      reads this, attributes, other, other.attributes
    {
      SameSession(State(), other.State())
    }

    /** toData; the session's own flag is cleared. */
    method ToData() returns (out: seq<Token>)
      modifies this
      ensures out == SessionData(old(State()))
      ensures State() == old(State()).(delta := false)
    {
      var name := GetPrincipalName();
      var principal := if name.Some? && HasText(name.value) then [Int(|name.value|), UTF(name.value)]
                       else [Int(0)];
      out := [UTF(id), Long(creationTime), Long(lastAccessedTime), Int(maxInactiveIntervalInSeconds)]
             + principal + [Obj(AttributesObject(attributes.attributes))];
      delta := false;
    }

    /** fromData: each field read in turn, then the attributes copied in. */
    method FromData(input: seq<Token>) returns (r: Result<seq<Token>>)
      modifies this, attributes
      ensures r.Ok? <==> ReadSessionData(input).Ok?
      ensures r.Ok? ==> r.value == ReadSessionData(input).value.1
      ensures r.Ok? ==> State() == ApplyData(old(State()), ReadSessionData(input).value.0)
    {
      var data := ReadSessionData(input);
      if data.Err? {
        return Err(data.failure);
      }
      var rec := data.value.0;
      id := rec.id;
      creationTime := rec.creationTime;
      SetLastAccessedTime(rec.lastAccessedTime);
      SetMaxInactiveIntervalInSeconds(rec.maxInactiveIntervalInSeconds);
      if rec.principal.Some? {
        SetPrincipalName(rec.principal);
      }
      attributes.From(rec.attributes);
      delta := false;
      return Ok(data.value.1);
    }

    /** toDelta: the times, then the attribute delta; everything is flushed. */
    method ToDelta() returns (out: seq<Token>, order: seq<string>)
      modifies this, attributes
      ensures Enumerates(order, old(attributes.deltas))
      ensures out == SessionDelta(old(State()), order)
      ensures State() == Flushed(old(State()))
    {
      var pairs;
      pairs, order := attributes.ToDelta();
      out := [Long(lastAccessedTime), Int(maxInactiveIntervalInSeconds)] + pairs;
      delta := false;
    }

    /** fromDelta: the times, then the attribute delta; the flag is cleared. */
    method FromDelta(input: seq<Token>) returns (r: Result<seq<Token>>)
      modifies this, attributes
      ensures r.Ok? <==> ReadSessionDelta(input).Ok?
      ensures r.Ok? ==> r.value == ReadSessionDelta(input).value.1
      ensures r.Ok? ==> State() == ApplyDelta(old(State()), ReadSessionDelta(input).value.0)
    {
      var accessed := ReadLong(input);
      if accessed.Err? {
        return Err(accessed.failure);
      }
      var interval := ReadInt(accessed.value.1);
      if interval.Err? {
        return Err(interval.failure);
      }
      SetLastAccessedTime(accessed.value.0);
      SetMaxInactiveIntervalInSeconds(interval.value.0);
      r := attributes.FromDelta(interval.value.1);
      if r.Ok? {
        delta := false;
      }
    }
  }
}

# Session repository core of spring-session-data-geode

A Dafny model of the core of `AbstractGemFireOperationsSessionRepository`, the Spring Session
repository that keeps HTTP sessions in an Apache Geode / Pivotal GemFire region. The
implementation class is not part of this model's sources. Its behaviour is rebuilt from the
assertions of its unit test, `AbstractGemFireOperationsSessionRepositoryTest`, and each
member below cites the test lines it follows.

The model has three parts, plus two small support modules:

- `Attributes` (`session_attributes.dfy`): `GemFireSessionAttributes`, an attribute map plus
  the set of names changed since the last delta flush. The class updates both in place. Each
  method is tied to a `Store` function. The delta rules and the full and delta round trips
  are lemmas about those functions.
- `Sessions` (`gemfire_session.dfy`): `GemFireSession`. It holds the id, the times, the
  max-inactive interval and a delta flag, and owns an attribute store. This file covers
  construction and its errors, `create` and `from` (including the identity short-circuit),
  the principal-name sugar, `isExpired(now)`, `compareTo`/`equals`, and the
  `toData`/`fromData` and `toDelta`/`fromDelta` encodings.
- `Repository` (`session_repository.dfy`): the cache listener. It classifies entry events
  (`isCreate`), remembers announced ids, publishes `Created`/`Destroyed`/`Expired`/`Deleted`
  events, and logs and swallows publisher failures. `Run` folds the callbacks over a
  `RepoState`. The main theorem is `HistoryNeverReopens`: in a proxy region with a
  delivering publisher, and with every session stored under its own id, no session is
  announced as created while still open.
- `DataStream` (`data_stream.dfy`): the value domain, plus the `DataOutput`/`DataInput`
  streams as sequences of tokens. There is one token per `writeUTF`, `writeLong`,
  `writeInt` or `writeObject` call.
- `JavaText` (`java_text.dfy`): Spring's `StringUtils.hasText`, built on Java's
  `Character.isWhitespace`.

Clock readings (`System.currentTimeMillis`) and generated ids (`UUID.randomUUID`) are
parameters (`now`, `generatedId`). The event publisher is also chosen by a parameter: one
that delivers, or one that throws on every event.

Decisions the tests leave open, and how the model settles them:

- `afterCreate` remembers a key when it announces it. The memory is consulted only in an
  `EMPTY` (proxy) region, so a `NORMAL` region announces every create (test lines 273-288).
- Every event carrying a session takes that session's id, as the session event classes
  do when built from a session; only an event without a session uses the key (or the id
  given to `handleDeleted`). The memory is keyed by the entry's key, so the no-reopen
  theorem assumes each session is stored under its own id.
- `afterInvalidate` forgets the key, which the create/expire/re-create test requires
  (758-819). `afterDestroy` forgets it too; this symmetric choice is not pinned down by a
  test. `handleDeleted` leaves the memory alone.
- The session setters raise the delta flag only when the value changes. Each delta test
  checks that the value differs before setting it.
- `toData` writes the principal length and name only when the name has text, and a 0
  length otherwise. `fromData` reads the name only for a positive length (1187-1317).
- Session `fromData` assigns the id and creation time, sets the two times through their
  setters, sets the principal if one was read, copies the attributes in with `from`, and
  clears the session's own flag.
- Attribute `fromDelta` reads every pair first. It then sets each received attribute and
  removes only the received names from the deltas. The test shows other dirty names staying
  dirty (1704-1722). This differs from a flush that clears the whole dirty set.
- The error line logged for a failed publication renders the event as
  `java.util.EventObject` does, with the repository's string form as the source.

## Model

| member | source | states |
|---|---|---|
| DataStream.ReadUTF | spring-session-data-geode/src/test/java/org/springframework/session/data/gemfire/AbstractGemFireOperationsSessionRepositoryTest.java:1217-1270 | readUTF succeeds exactly when the next token is a UTF token, and consumes just that token |
| DataStream.ReadLong | spring-session-data-geode/src/test/java/org/springframework/session/data/gemfire/AbstractGemFireOperationsSessionRepositoryTest.java:1217-1270 | readLong succeeds exactly when the next token is a Long token, and consumes just that token |
| DataStream.ReadInt | spring-session-data-geode/src/test/java/org/springframework/session/data/gemfire/AbstractGemFireOperationsSessionRepositoryTest.java:1561-1592 | readInt succeeds exactly when the next token is an Int token, and consumes just that token |
| DataStream.ReadObject | spring-session-data-geode/src/test/java/org/springframework/session/data/gemfire/AbstractGemFireOperationsSessionRepositoryTest.java:1561-1592 | readObject succeeds exactly when the next token is an object, and consumes just that token |
| JavaText.HasTextMeansNonEmpty | spring-session-data-geode/src/test/java/org/springframework/session/data/gemfire/AbstractGemFireOperationsSessionRepositoryTest.java:960-971 | a string with text is non-empty; the blank id " " and an id of tabs and newlines have no text, and "abc123" has |
| Attributes.SetTracksChanges | spring-session-data-geode/src/test/java/org/springframework/session/data/gemfire/AbstractGemFireOperationsSessionRepositoryTest.java:1076-1108 | setAttribute makes the name hold the value, null meaning absent, and leaves every other name alone; the name becomes a delta exactly when its value changes, other deltas unchanged |
| Attributes.Set | spring-session-data-geode/src/test/java/org/springframework/session/data/gemfire/AbstractGemFireOperationsSessionRepositoryTest.java:1076-1108 | the setAttribute rule, null acting as removal; its effect on values and deltas is SetTracksChanges |
| Attributes.Remove | spring-session-data-geode/src/test/java/org/springframework/session/data/gemfire/AbstractGemFireOperationsSessionRepositoryTest.java:1076-1108 | removeAttribute leaves the name absent and every other name alone; the name is a delta afterwards exactly when it was one or was present; other deltas unchanged |
| Attributes.Merge | spring-session-data-geode/src/test/java/org/springframework/session/data/gemfire/AbstractGemFireOperationsSessionRepositoryTest.java:1489-1533 | from(..): every source name holds the source's value, every other name keeps its value, and a name is a delta afterwards exactly when it was one or its value changed |
| Attributes.StoreHasDelta | spring-session-data-geode/src/test/java/org/springframework/session/data/gemfire/AbstractGemFireOperationsSessionRepositoryTest.java:1594-1611 | hasDelta of the attributes: some name changed since the last flush |
| Attributes.GemFireSessionAttributes.HasDelta | spring-session-data-geode/src/test/java/org/springframework/session/data/gemfire/AbstractGemFireOperationsSessionRepositoryTest.java:1594-1611 | the store has a pending change exactly when its delta set is non-empty |
| Attributes.SetKeepsSynced | spring-session-data-geode/src/test/java/org/springframework/session/data/gemfire/AbstractGemFireOperationsSessionRepositoryTest.java:1594-1661 | every name on which the store differs from its last flushed state stays a delta across setAttribute |
| Attributes.MergeKeepsSynced | spring-session-data-geode/src/test/java/org/springframework/session/data/gemfire/AbstractGemFireOperationsSessionRepositoryTest.java:1489-1533 | the same holds across from(..) |
| Attributes.FlushCycle | spring-session-data-geode/src/test/java/org/springframework/session/data/gemfire/AbstractGemFireOperationsSessionRepositoryTest.java:1612-1661 | two new attributes are two deltas; after a flush, re-setting an equal value leaves no delta; changing one value makes it the only delta |
| Attributes.FlushedDeltaIsEmpty | spring-session-data-geode/src/test/java/org/springframework/session/data/gemfire/AbstractGemFireOperationsSessionRepositoryTest.java:1612-1661 | after a flush the next toDelta writes a zero count and no pairs |
| Attributes.DataRoundTrip | spring-session-data-geode/src/test/java/org/springframework/session/data/gemfire/AbstractGemFireOperationsSessionRepositoryTest.java:1535-1592 | fromData of toData's output reads back every pair and holds exactly the written map with no deltas, in any iteration order |
| Attributes.DeltaRoundTrip | spring-session-data-geode/src/test/java/org/springframework/session/data/gemfire/AbstractGemFireOperationsSessionRepositoryTest.java:1612-1726 | a reader that agrees with the writer outside the writer's deltas gets the writer's map from fromDelta of toDelta's output; the received names stop being the reader's deltas and its other deltas stay |
| Attributes.DeltaTouchesOnlyReceived | spring-session-data-geode/src/test/java/org/springframework/session/data/gemfire/AbstractGemFireOperationsSessionRepositoryTest.java:1663-1726 | fromDelta's deltas are the old deltas minus the received names, and every name not received keeps its value |
| Attributes.CollectKeys | spring-session-data-geode/src/test/java/org/springframework/session/data/gemfire/AbstractGemFireOperationsSessionRepositoryTest.java:1663-1726 | the received map's names are exactly the names in the received pairs |
| Attributes.EntrySetSize | spring-session-data-geode/src/test/java/org/springframework/session/data/gemfire/AbstractGemFireOperationsSessionRepositoryTest.java:1728-1776 | a map has as many (name, value) entries as names |
| Attributes.ReadDelta | spring-session-data-geode/src/test/java/org/springframework/session/data/gemfire/AbstractGemFireOperationsSessionRepositoryTest.java:1663-1726 | the reading loop of fromDelta succeeds exactly when the stream holds a count and that many pairs, and yields the pairs as a map with later pairs winning |
| Attributes.GemFireSessionAttributes.constructor | spring-session-data-geode/src/test/java/org/springframework/session/data/gemfire/AbstractGemFireOperationsSessionRepositoryTest.java:1594-1597 | a new store has no attributes and no deltas |
| Attributes.GemFireSessionAttributes.EntrySet | spring-session-data-geode/src/test/java/org/springframework/session/data/gemfire/AbstractGemFireOperationsSessionRepositoryTest.java:1728-1776 | the entries are exactly the current (name, value) pairs, one per attribute |
| Attributes.GemFireSessionAttributes.SetAttribute | spring-session-data-geode/src/test/java/org/springframework/session/data/gemfire/AbstractGemFireOperationsSessionRepositoryTest.java:1076-1108 | returns the previous value; the new state is Set of the old one |
| Attributes.GemFireSessionAttributes.RemoveAttribute | spring-session-data-geode/src/test/java/org/springframework/session/data/gemfire/AbstractGemFireOperationsSessionRepositoryTest.java:1076-1108 | returns the previous value; a present name is removed and becomes a delta, otherwise nothing changes |
| Attributes.GemFireSessionAttributes.From | spring-session-data-geode/src/test/java/org/springframework/session/data/gemfire/AbstractGemFireOperationsSessionRepositoryTest.java:1489-1533 | copies every source attribute in through setAttribute: source values win, changed names become deltas |
| Attributes.GemFireSessionAttributes.WritePairs | spring-session-data-geode/src/test/java/org/springframework/session/data/gemfire/AbstractGemFireOperationsSessionRepositoryTest.java:1535-1559 | writes one (name, value) pair for each of the given names, each name exactly once |
| Attributes.GemFireSessionAttributes.ToData | spring-session-data-geode/src/test/java/org/springframework/session/data/gemfire/AbstractGemFireOperationsSessionRepositoryTest.java:1535-1559 | writes the attribute count, then every (name, value) pair |
| Attributes.GemFireSessionAttributes.FromData | spring-session-data-geode/src/test/java/org/springframework/session/data/gemfire/AbstractGemFireOperationsSessionRepositoryTest.java:1561-1592 | succeeds exactly when the stream holds a count and that many pairs; the store then holds exactly the pairs read, no deltas |
| Attributes.GemFireSessionAttributes.ToDelta | spring-session-data-geode/src/test/java/org/springframework/session/data/gemfire/AbstractGemFireOperationsSessionRepositoryTest.java:1612-1661 | writes the delta count, then (name, value or null) for each delta only; the deltas are then empty and the map unchanged |
| Attributes.GemFireSessionAttributes.FromDelta | spring-session-data-geode/src/test/java/org/springframework/session/data/gemfire/AbstractGemFireOperationsSessionRepositoryTest.java:1663-1726 | succeeds exactly when the stream is well formed; the received values overwrite and only the received names stop being deltas; a malformed stream changes nothing |
| Attributes.GemFireSessionAttributes.Receive | spring-session-data-geode/src/test/java/org/springframework/session/data/gemfire/AbstractGemFireOperationsSessionRepositoryTest.java:1663-1726 | applying received values sets each one and un-dirties exactly the received names |
| Sessions.NewSessionShape | spring-session-data-geode/src/test/java/org/springframework/session/data/gemfire/AbstractGemFireOperationsSessionRepositoryTest.java:930-971 | construction fails with "ID must be specified" exactly for a blank id; otherwise last access equals creation, interval 0, no attributes, no delta |
| Sessions.NewSession | spring-session-data-geode/src/test/java/org/springframework/session/data/gemfire/AbstractGemFireOperationsSessionRepositoryTest.java:930-971 | construction from an id and the clock; its outcome and shape are NewSessionShape |
| Sessions.CopyOf | spring-session-data-geode/src/test/java/org/springframework/session/data/gemfire/AbstractGemFireOperationsSessionRepositoryTest.java:973-1018 | the copy constructor; its outcome and shape are CopyOfShape |
| Sessions.TouchedAt | spring-session-data-geode/src/test/java/org/springframework/session/data/gemfire/AbstractGemFireOperationsSessionRepositoryTest.java:1336-1355 | setLastAccessedTime; SettersTrackChanges states that it stores the time and raises the flag exactly on a change |
| Sessions.ExpiredAt | spring-session-data-geode/src/test/java/org/springframework/session/data/gemfire/AbstractGemFireOperationsSessionRepositoryTest.java:1110-1156 | isExpired(now); characterised by NegativeIntervalNeverExpires, ExpiryThreshold, ExpiryIsMonotone and TouchRenews |
| Sessions.Compare | spring-session-data-geode/src/test/java/org/springframework/session/data/gemfire/AbstractGemFireOperationsSessionRepositoryTest.java:1438-1454 | compareTo on creation times; an ordering by CompareIsOrdering |
| Sessions.SameSession | spring-session-data-geode/src/test/java/org/springframework/session/data/gemfire/AbstractGemFireOperationsSessionRepositoryTest.java:1456-1478 | equals on ids; inconsistent with compareTo by OrderingIsInconsistentWithEquals |
| Sessions.ImageHasDelta | spring-session-data-geode/src/test/java/org/springframework/session/data/gemfire/AbstractGemFireOperationsSessionRepositoryTest.java:1319-1376 | hasDelta: the session's own flag or a pending attribute change |
| Sessions.ApplyData | spring-session-data-geode/src/test/java/org/springframework/session/data/gemfire/AbstractGemFireOperationsSessionRepositoryTest.java:1217-1270 | what fromData does with a record read; ApplyWrittenRecord and SessionDataRoundTrip state its result on toData output |
| Sessions.ApplyDelta | spring-session-data-geode/src/test/java/org/springframework/session/data/gemfire/AbstractGemFireOperationsSessionRepositoryTest.java:1408-1436 | what fromDelta does with a delta read; SessionDeltaRoundTrip states its result on toDelta output |
| Sessions.CreatedShape | spring-session-data-geode/src/test/java/org/springframework/session/data/gemfire/AbstractGemFireOperationsSessionRepositoryTest.java:1020-1034 | create(interval): last access equals creation, the interval given, no attributes; a pending change exactly when the interval is not 0 |
| Sessions.CopyOfShape | spring-session-data-geode/src/test/java/org/springframework/session/data/gemfire/AbstractGemFireOperationsSessionRepositoryTest.java:973-1018 | the copy fails only for a null source, with "The ExpiringSession to copy cannot be null"; a copy has the source's id, times, interval and attributes and a clear flag |
| Sessions.SettersTrackChanges | spring-session-data-geode/src/test/java/org/springframework/session/data/gemfire/AbstractGemFireOperationsSessionRepositoryTest.java:1319-1376 | a setter stores its value and raises the flag exactly when the value changes; hasDelta is never lowered by a setter |
| Sessions.NegativeIntervalNeverExpires | spring-session-data-geode/src/test/java/org/springframework/session/data/gemfire/AbstractGemFireOperationsSessionRepositoryTest.java:1110-1120 | a negative interval never expires |
| Sessions.ExpiryThreshold | spring-session-data-geode/src/test/java/org/springframework/session/data/gemfire/AbstractGemFireOperationsSessionRepositoryTest.java:1122-1156 | with a non-negative interval, expired exactly when at least the interval in milliseconds has passed since last access |
| Sessions.ExpiryIsMonotone | spring-session-data-geode/src/test/java/org/springframework/session/data/gemfire/AbstractGemFireOperationsSessionRepositoryTest.java:1140-1156 | an expired session stays expired as the clock advances |
| Sessions.TouchRenews | spring-session-data-geode/src/test/java/org/springframework/session/data/gemfire/AbstractGemFireOperationsSessionRepositoryTest.java:1122-1138 | a session touched now is expired now only when its interval is 0 |
| Sessions.PrincipalIsAttribute | spring-session-data-geode/src/test/java/org/springframework/session/data/gemfire/AbstractGemFireOperationsSessionRepositoryTest.java:1158-1185 | the principal name is the principal attribute: either setter is seen by both, null removes it, other attributes untouched |
| Sessions.CompareIsOrdering | spring-session-data-geode/src/test/java/org/springframework/session/data/gemfire/AbstractGemFireOperationsSessionRepositoryTest.java:1438-1454 | compareTo is antisymmetric and transitive and ranks by creation time, 0 exactly on equal creation times |
| Sessions.OrderingIsInconsistentWithEquals | spring-session-data-geode/src/test/java/org/springframework/session/data/gemfire/AbstractGemFireOperationsSessionRepositoryTest.java:1456-1478 | two sessions with one id but different creation times are equal yet do not compare as 0 |
| Sessions.ReadPrincipalOfTokens | spring-session-data-geode/src/test/java/org/springframework/session/data/gemfire/AbstractGemFireOperationsSessionRepositoryTest.java:1272-1317 | the principal part reads back the name when it has text, null otherwise |
| Sessions.ReadSessionDataOf | spring-session-data-geode/src/test/java/org/springframework/session/data/gemfire/AbstractGemFireOperationsSessionRepositoryTest.java:1187-1270 | fromData reads back from toData's output the id, both times, the interval, the principal (when it has text) and the attributes |
| Sessions.ApplyWrittenRecord | spring-session-data-geode/src/test/java/org/springframework/session/data/gemfire/AbstractGemFireOperationsSessionRepositoryTest.java:1217-1270 | applying what was written leaves the writer's attributes over the reader's, the principal included |
| Sessions.SessionDataRoundTrip | spring-session-data-geode/src/test/java/org/springframework/session/data/gemfire/AbstractGemFireOperationsSessionRepositoryTest.java:1187-1317 | toData then fromData gives the writer's id (an equal session), times and interval, a clear flag, and the writer's attributes over the reader's; a reader without attributes gets exactly the writer's attributes and principal, null included |
| Sessions.SessionDeltaRoundTrip | spring-session-data-geode/src/test/java/org/springframework/session/data/gemfire/AbstractGemFireOperationsSessionRepositoryTest.java:1378-1436 | toDelta then fromDelta gives the writer's times and attributes to a reader that agrees outside the writer's changes; the reader's flag is clear |
| Sessions.FlushLeavesNoDelta | spring-session-data-geode/src/test/java/org/springframework/session/data/gemfire/AbstractGemFireOperationsSessionRepositoryTest.java:1378-1406 | after toDelta hasDelta is false and the next toDelta writes the times and a zero count |
| Sessions.GemFireSession.constructor | spring-session-data-geode/src/test/java/org/springframework/session/data/gemfire/AbstractGemFireOperationsSessionRepositoryTest.java:945-958 | a session with the given id, both times now, interval 0, no attributes |
| Sessions.GemFireSession.Copy | spring-session-data-geode/src/test/java/org/springframework/session/data/gemfire/AbstractGemFireOperationsSessionRepositoryTest.java:973-1005 | a session with the source's id, times, interval and attributes |
| Sessions.GemFireSession.New | spring-session-data-geode/src/test/java/org/springframework/session/data/gemfire/AbstractGemFireOperationsSessionRepositoryTest.java:930-971 | fails exactly when construction fails, with its message; otherwise a fresh session in the constructed state |
| Sessions.GemFireSession.CopyFrom | spring-session-data-geode/src/test/java/org/springframework/session/data/gemfire/AbstractGemFireOperationsSessionRepositoryTest.java:973-1018 | fails exactly for a null source, with its message; otherwise a fresh copy |
| Sessions.GemFireSession.Create | spring-session-data-geode/src/test/java/org/springframework/session/data/gemfire/AbstractGemFireOperationsSessionRepositoryTest.java:1020-1034 | a fresh session in the state create(interval) describes |
| Sessions.GemFireSession.From | spring-session-data-geode/src/test/java/org/springframework/session/data/gemfire/AbstractGemFireOperationsSessionRepositoryTest.java:1036-1074 | a GemFireSession comes back as the same object; another session is copied into a fresh one; null fails |
| Sessions.GemFireSession.SetLastAccessedTime | spring-session-data-geode/src/test/java/org/springframework/session/data/gemfire/AbstractGemFireOperationsSessionRepositoryTest.java:1336-1355 | the new state is TouchedAt of the old one |
| Sessions.GemFireSession.SetMaxInactiveIntervalInSeconds | spring-session-data-geode/src/test/java/org/springframework/session/data/gemfire/AbstractGemFireOperationsSessionRepositoryTest.java:1357-1376 | the new state is WithMaxInactiveInterval of the old one |
| Sessions.GemFireSession.SetAttribute | spring-session-data-geode/src/test/java/org/springframework/session/data/gemfire/AbstractGemFireOperationsSessionRepositoryTest.java:1076-1108 | the attributes change as Set says |
| Sessions.GemFireSession.RemoveAttribute | spring-session-data-geode/src/test/java/org/springframework/session/data/gemfire/AbstractGemFireOperationsSessionRepositoryTest.java:1076-1108 | the attribute is removed as Remove says |
| Sessions.GemFireSession.SetPrincipalName | spring-session-data-geode/src/test/java/org/springframework/session/data/gemfire/AbstractGemFireOperationsSessionRepositoryTest.java:1158-1185 | the principal attribute is set, or removed for null |
| Sessions.GemFireSession.GetPrincipalName | spring-session-data-geode/src/test/java/org/springframework/session/data/gemfire/AbstractGemFireOperationsSessionRepositoryTest.java:1158-1185 | the principal name is the String held under the principal attribute (PrincipalIsAttribute) |
| Sessions.GemFireSession.IsExpired | spring-session-data-geode/src/test/java/org/springframework/session/data/gemfire/AbstractGemFireOperationsSessionRepositoryTest.java:1110-1156 | isExpired(now) is ExpiredAt of the session's state |
| Sessions.GemFireSession.HasDelta | spring-session-data-geode/src/test/java/org/springframework/session/data/gemfire/AbstractGemFireOperationsSessionRepositoryTest.java:1319-1376 | hasDelta is ImageHasDelta of the session's state |
| Sessions.GemFireSession.CompareTo | spring-session-data-geode/src/test/java/org/springframework/session/data/gemfire/AbstractGemFireOperationsSessionRepositoryTest.java:1438-1454 | compareTo is Compare of the two sessions' states |
| Sessions.GemFireSession.Equals | spring-session-data-geode/src/test/java/org/springframework/session/data/gemfire/AbstractGemFireOperationsSessionRepositoryTest.java:1456-1478 | equals is SameSession of the two sessions' states |
| Sessions.GemFireSession.ToData | spring-session-data-geode/src/test/java/org/springframework/session/data/gemfire/AbstractGemFireOperationsSessionRepositoryTest.java:1187-1215 | writes SessionData of the state (id, times, interval, principal length and name, attributes); the flag is cleared |
| Sessions.GemFireSession.FromData | spring-session-data-geode/src/test/java/org/springframework/session/data/gemfire/AbstractGemFireOperationsSessionRepositoryTest.java:1217-1270 | succeeds exactly when the stream is well formed; the state is then ApplyData of the record read |
| Sessions.GemFireSession.ToDelta | spring-session-data-geode/src/test/java/org/springframework/session/data/gemfire/AbstractGemFireOperationsSessionRepositoryTest.java:1378-1406 | writes last access, interval and the attribute delta; nothing is left to flush |
| Sessions.GemFireSession.FromDelta | spring-session-data-geode/src/test/java/org/springframework/session/data/gemfire/AbstractGemFireOperationsSessionRepositoryTest.java:1408-1436 | succeeds exactly when the stream is well formed; the state is then ApplyDelta of the record read |
| Repository.OnlyCreateOperationsCreate | spring-session-data-geode/src/test/java/org/springframework/session/data/gemfire/AbstractGemFireOperationsSessionRepositoryTest.java:290-320 | no operation but CREATE is a create, UPDATE and LOCAL_LOAD_CREATE included, and afterCreate then changes nothing |
| Repository.ProxyCreateRule | spring-session-data-geode/src/test/java/org/springframework/session/data/gemfire/AbstractGemFireOperationsSessionRepositoryTest.java:257-354 | in an EMPTY region a CREATE is a create exactly when the key is not remembered and the new value is a session or null |
| Repository.NonProxyCreateRule | spring-session-data-geode/src/test/java/org/springframework/session/data/gemfire/AbstractGemFireOperationsSessionRepositoryTest.java:273-288 | in a NORMAL region a CREATE is a create exactly when the new value is a session or null, whatever the memory holds |
| Repository.PublishOutcome | spring-session-data-geode/src/test/java/org/springframework/session/data/gemfire/AbstractGemFireOperationsSessionRepositoryTest.java:901-919 | publishEvent delivers exactly the event, or logs exactly one "Error occurred publishing event [..]" line and delivers nothing |
| Repository.CreateAnnouncement | spring-session-data-geode/src/test/java/org/springframework/session/data/gemfire/AbstractGemFireOperationsSessionRepositoryTest.java:356-514 | a create whose new value is a session publishes one Created carrying that session and its own id; with a null new value it carries the key and no session; a non-create publishes nothing; nothing is logged |
| Repository.RemovalAnnouncements | spring-session-data-geode/src/test/java/org/springframework/session/data/gemfire/AbstractGemFireOperationsSessionRepositoryTest.java:516-899 | afterDestroy and afterInvalidate each publish one Destroyed or Expired event carrying the old session and its own id, or the key and no session when the old value is not a session; handleDeleted publishes one Deleted carrying the given session and its id, or the id argument and no session |
| Repository.ReplayedCreateIsSuppressed | spring-session-data-geode/src/test/java/org/springframework/session/data/gemfire/AbstractGemFireOperationsSessionRepositoryTest.java:322-338 | in an EMPTY region a create once announced is no longer a create, and replaying it changes nothing |
| Repository.RemovalMakesCreatable | spring-session-data-geode/src/test/java/org/springframework/session/data/gemfire/AbstractGemFireOperationsSessionRepositoryTest.java:758-819 | after invalidation or destruction of the key a CREATE for it is a create again |
| Repository.CreateExpireRecreate | spring-session-data-geode/src/test/java/org/springframework/session/data/gemfire/AbstractGemFireOperationsSessionRepositoryTest.java:758-819 | create, duplicate create, invalidate, create for one session publishes exactly Created, Expired, Created, each with the session's id |
| Repository.NonProxyAnnouncesEveryCreate | spring-session-data-geode/src/test/java/org/springframework/session/data/gemfire/AbstractGemFireOperationsSessionRepositoryTest.java:273-288 | in a NORMAL region a repeated CREATE is announced each time |
| Repository.IsCreateEvent | spring-session-data-geode/src/test/java/org/springframework/session/data/gemfire/AbstractGemFireOperationsSessionRepositoryTest.java:257-354 | the isCreate rule: a CREATE whose new value is a session or null, for a key not remembered when the region is EMPTY; stated case by case in OnlyCreateOperationsCreate, ProxyCreateRule and NonProxyCreateRule |
| Repository.Publish | spring-session-data-geode/src/test/java/org/springframework/session/data/gemfire/AbstractGemFireOperationsSessionRepositoryTest.java:901-919 | publishEvent changes only the delivered events and the error log; what it delivers or logs is PublishOutcome |
| Repository.OnCreate | spring-session-data-geode/src/test/java/org/springframework/session/data/gemfire/AbstractGemFireOperationsSessionRepositoryTest.java:356-514 | afterCreate changes the memory only at the key, which joins it exactly on a create; everything but the memory, the events and the log is unchanged |
| Repository.OnDestroy | spring-session-data-geode/src/test/java/org/springframework/session/data/gemfire/AbstractGemFireOperationsSessionRepositoryTest.java:516-634 | afterDestroy forgets the key and no other id; everything but the memory, the events and the log is unchanged |
| Repository.OnInvalidate | spring-session-data-geode/src/test/java/org/springframework/session/data/gemfire/AbstractGemFireOperationsSessionRepositoryTest.java:636-756 | afterInvalidate forgets the key and no other id; everything but the memory, the events and the log is unchanged |
| Repository.OnDeleted | spring-session-data-geode/src/test/java/org/springframework/session/data/gemfire/AbstractGemFireOperationsSessionRepositoryTest.java:833-899 | handleDeleted changes only the delivered events and the error log; the memory is untouched |
| Repository.OpenSnoc | spring-session-data-geode/src/test/java/org/springframework/session/data/gemfire/AbstractGemFireOperationsSessionRepositoryTest.java:758-819 | how one more event opens, closes or leaves open a session in the history |
| Repository.NoReopenSnoc | spring-session-data-geode/src/test/java/org/springframework/session/data/gemfire/AbstractGemFireOperationsSessionRepositoryTest.java:758-819 | appending an event that does not reopen an open session keeps the history well bracketed |
| Repository.StepKeepsHistory | spring-session-data-geode/src/test/java/org/springframework/session/data/gemfire/AbstractGemFireOperationsSessionRepositoryTest.java:758-819 | one callback on a session stored under its own id keeps every open session remembered and announces no Created for an open session |
| Repository.HistoryNeverReopens | spring-session-data-geode/src/test/java/org/springframework/session/data/gemfire/AbstractGemFireOperationsSessionRepositoryTest.java:758-819 | no sequence of callbacks on sessions stored under their own ids, in an EMPTY region with a delivering publisher, announces a session as created while it is still open |
| Repository.SessionRepository.constructor | spring-session-data-geode/src/test/java/org/springframework/session/data/gemfire/AbstractGemFireOperationsSessionRepositoryTest.java:235-255 | a new repository has no memory, no events, no log and the default interval |
| Repository.SessionRepository.SetRegion | spring-session-data-geode/src/test/java/org/springframework/session/data/gemfire/AbstractGemFireOperationsSessionRepositoryTest.java:257-354 | only the region's data policy changes |
| Repository.SessionRepository.SetApplicationEventPublisher | spring-session-data-geode/src/test/java/org/springframework/session/data/gemfire/AbstractGemFireOperationsSessionRepositoryTest.java:901-919 | only the publisher changes |
| Repository.SessionRepository.SetMaxInactiveIntervalInSeconds | spring-session-data-geode/src/test/java/org/springframework/session/data/gemfire/AbstractGemFireOperationsSessionRepositoryTest.java:235-255 | any interval, negative or extreme, is stored and nothing else changes |
| Repository.SessionRepository.Remember | spring-session-data-geode/src/test/java/org/springframework/session/data/gemfire/AbstractGemFireOperationsSessionRepositoryTest.java:273-288 | the id joins the memory and nothing else changes |
| Repository.SessionRepository.Forget | spring-session-data-geode/src/test/java/org/springframework/session/data/gemfire/AbstractGemFireOperationsSessionRepositoryTest.java:758-819 | the id leaves the memory and nothing else changes |
| Repository.SessionRepository.PublishEvent | spring-session-data-geode/src/test/java/org/springframework/session/data/gemfire/AbstractGemFireOperationsSessionRepositoryTest.java:901-919 | the new state is Publish of the old one |
| Repository.SessionRepository.IsCreate | spring-session-data-geode/src/test/java/org/springframework/session/data/gemfire/AbstractGemFireOperationsSessionRepositoryTest.java:257-354 | the repository's isCreate is the IsCreateEvent rule on its current region policy and memory |
| Repository.SessionRepository.HandleCreated | spring-session-data-geode/src/test/java/org/springframework/session/data/gemfire/AbstractGemFireOperationsSessionRepositoryTest.java:356-442 | publishes the Created event: with the session's own id when a session is given, otherwise with the id argument |
| Repository.SessionRepository.AfterCreate | spring-session-data-geode/src/test/java/org/springframework/session/data/gemfire/AbstractGemFireOperationsSessionRepositoryTest.java:356-514 | the new state is OnCreate of the old one: a create is remembered under its key and announced with the session's own id (CreateAnnouncement) |
| Repository.SessionRepository.AfterDestroy | spring-session-data-geode/src/test/java/org/springframework/session/data/gemfire/AbstractGemFireOperationsSessionRepositoryTest.java:516-634 | the new state is OnDestroy of the old one: the key is forgotten and a Destroyed event published with the old session's own id, or the key (RemovalAnnouncements) |
| Repository.SessionRepository.AfterInvalidate | spring-session-data-geode/src/test/java/org/springframework/session/data/gemfire/AbstractGemFireOperationsSessionRepositoryTest.java:636-756 | the new state is OnInvalidate of the old one: the key is forgotten and an Expired event published with the old session's own id, or the key (RemovalAnnouncements) |
| Repository.SessionRepository.HandleDeleted | spring-session-data-geode/src/test/java/org/springframework/session/data/gemfire/AbstractGemFireOperationsSessionRepositoryTest.java:833-899 | the new state is OnDeleted of the old one: a Deleted event with the given session's own id, or the id argument (RemovalAnnouncements) |
| Repository.SessionRepository.Delete | spring-session-data-geode/src/test/java/org/springframework/session/data/gemfire/AbstractGemFireOperationsSessionRepositoryTest.java:821-831 | the id is recorded as deleted and nothing else changes |
| Repository.SessionRepository.DeleteSession | spring-session-data-geode/src/test/java/org/springframework/session/data/gemfire/AbstractGemFireOperationsSessionRepositoryTest.java:821-831 | delete(session) is delete of the session's id |
| Repository.SessionRepository.Touch | spring-session-data-geode/src/test/java/org/springframework/session/data/gemfire/AbstractGemFireOperationsSessionRepositoryTest.java:921-928 | sets the session's last-accessed time to now and returns the same session |

## Left out

- Attributes.GemFireSessionAttributes.FromData: the state after a malformed stream is not specified. Java leaves whatever pairs were read before the failure, and the model does not track that partial state.
- Sessions.GemFireSession.FromData: the state after a malformed stream is not specified; fields read before the failure have already been assigned.
- Sessions.GemFireSession.FromDelta: the state after a malformed stream is not specified; the times are set before the attribute delta is read.
- Sessions.GemFireSession.Create: the generated id is a parameter required to have text, as a random UUID always does.
- Sessions.Principal: a principal attribute that is not a String is read as no principal. Java's `getPrincipalName` would throw a `ClassCastException`.
- Sessions.ReadAttributesObject: a non-attribute object where the attributes belong is an `UnexpectedToken` failure. Java would fail with a cast or null-pointer exception.
- Integer widths: `long` and `int` fields are unbounded integers. No arithmetic in this core wraps; `interval * 1000` in `isExpired` is taken exactly.
- `writeUTF`'s 65535-byte limit, and the byte encoding of the streams: values travel as tokens.
- Java object serialization behind `writeObject`/`readObject`: an attribute value is an opaque token.
- The capacity and age bounds of the remembered-id memory: nothing in the tests exercises them, so the memory is a plain set.
- The live-view aliasing of `entrySet`: the model returns the current entries as a set.
- Concurrency, including the multithreaded `ThreadSafeSessionTest` (1778-1878): every operation is sequential here.
- `hashCode` (1480-1487): it depends on Java's hash arithmetic.
- Spring wiring: `afterPropertiesSet`, which registers the listener and reads the region path, and the null-template constructor check (185-233).
- Sessions.PrincipalTokens: written string lengths count characters, not UTF-16 units, so for a principal name with a supplementary character the written length differs from `String.length()`; only its positivity is read back.
- Mockito call counts: only outcomes are modelled. The order in which `isCreate` consults the key and the new value does not change its result.
- Removing an entry from the region: `delete(id)` is the subclass's job, and the model records only the id it was asked to delete.
- ClientServerGemFireOperationsSessionRepositoryIntegrationTests.java is not part of this model: it exercises a real client/server cache, ports and wall-clock expiry.

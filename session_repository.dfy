/**
 * The cache-listener half of AbstractGemFireOperationsSessionRepository: it turns the
 * cache's entry callbacks (create, destroy, invalidate) and explicit deletes into
 * session lifecycle events, using a memory of session ids already announced to
 * suppress duplicate creates, and publishes them through a publisher whose failures
 * are logged and swallowed.
 *
 * The abstract state is a RepoState value; each callback of the SessionRepository
 * class is specified by a RepoState function, and the event-sequence properties are
 * lemmas about those functions and their fold, Run.
 */
module Repository {
  import opened DataStream
  import opened Sessions

  /** The cache operations a callback can report. */
  datatype Operation = Create | Update | Invalidate | Destroy | LocalLoadCreate | LocalDestroy

  /** The data policy of the session region; EMPTY marks a client proxy region. */
  datatype DataPolicy = Empty | Normal | Replicate | Partition

  predicate IsProxy(policy: DataPolicy) {
    policy == Empty
  }

  /** A cache value in a callback: a session, some other object (a Tombstone), or null. */
  datatype CacheValue = SessionValue(session: Image) | Foreign | Absent

  datatype EntryEvent = EntryEvent(op: Operation, key: string, oldValue: CacheValue, newValue: CacheValue)

  datatype EventKind = Created | Deleted | Expired | Destroyed

  /** A session lifecycle event: its kind, the session id, and the session when the
      callback carried one. */
  datatype SessionEvent = SessionEvent(kind: EventKind, sessionId: string, session: Option<Image>)

  /** An application event publisher that delivers, or one that throws on every event. */
  datatype Publisher = Delivering | Throwing

  datatype RepoState = RepoState(
    policy: DataPolicy,
    remembered: set<string>,
    publisher: Publisher,
    source: string,                   // the repository's string form, the events' source
    published: seq<SessionEvent>,     // events the publisher received
    errorLog: seq<string>,            // lines logged at error level
    deleted: seq<string>,             // ids passed to delete(id)
    maxInactiveIntervalInSeconds: int)

  /** GemFireHttpSessionConfiguration.DEFAULT_MAX_INACTIVE_INTERVAL_IN_SECONDS. */
  const DEFAULT_MAX_INACTIVE_INTERVAL_IN_SECONDS: int := 1800

  function Initial(policy: DataPolicy, publisher: Publisher, source: string): RepoState {
    RepoState(policy, {}, publisher, source, [], [], [], DEFAULT_MAX_INACTIVE_INTERVAL_IN_SECONDS)
  }

  /** The session a callback value carries: anything but a session counts as none. */
  function SessionOf(v: CacheValue): Option<Image> {
    if v.SessionValue? then Some(v.session) else None
  }

  /** The id an event announces: the carried session's own id, or the key (or id
      argument) when no session is carried. */
  function EventId(key: string, session: Option<Image>): string {
    if session.Some? then session.value.id else key
  }

  /** A session event built as the session event classes build it: a session-carrying
      event takes the session's id. */
  function EventFor(kind: EventKind, key: string, session: Option<Image>): SessionEvent {
    SessionEvent(kind, EventId(key, session), session)
  }

  /** isCreate: a CREATE (not a load or an update), for a key the memory does not hold
      when the region is a proxy, whose new value is a session or null. */
  predicate IsCreateEvent(st: RepoState, e: EntryEvent) {
    && e.op == Create
    && (!IsProxy(st.policy) || e.key !in st.remembered)
    && !e.newValue.Foreign?
  }

  function EventClassName(kind: EventKind): string {
    match kind
    case Created => "org.springframework.session.events.SessionCreatedEvent"
    case Deleted => "org.springframework.session.events.SessionDeletedEvent"
    case Expired => "org.springframework.session.events.SessionExpiredEvent"
    case Destroyed => "org.springframework.session.events.SessionDestroyedEvent"
  }

  /** The line publishEvent logs when the publisher throws (the event in EventObject's
      string form). */
  function ErrorLine(ev: SessionEvent, source: string): string {
    "Error occurred publishing event [" + EventClassName(ev.kind) + "[source=" + source + "]]"
  }

  /** publishEvent: delivered, or logged and swallowed. Either way only the delivered
      events and the error log can change. */
  function Publish(st: RepoState, ev: SessionEvent): (r: RepoState)
    ensures r.(published := st.published, errorLog := st.errorLog) == st
  {
    match st.publisher
    case Delivering => st.(published := st.published + [ev])
    case Throwing => st.(errorLog := st.errorLog + [ErrorLine(ev, st.source)])
  }

  /** afterCreate: a real create is remembered and announced; anything else is ignored.
      The key is the only id whose membership in the memory can change, and it joins it
      exactly on a create. */
  function OnCreate(st: RepoState, e: EntryEvent): (r: RepoState)
    ensures r.remembered - {e.key} == st.remembered - {e.key}
    ensures e.key in r.remembered <==> e.key in st.remembered || IsCreateEvent(st, e)
    ensures r.(remembered := st.remembered, published := st.published, errorLog := st.errorLog) == st
  {
    if IsCreateEvent(st, e) then
      Publish(st.(remembered := st.remembered + {e.key}),
              EventFor(Created, e.key, SessionOf(e.newValue)))
    else st
  }

  /** afterDestroy: the key is forgotten and a Destroyed event announced. */
  function OnDestroy(st: RepoState, e: EntryEvent): (r: RepoState)
    ensures r.remembered - {e.key} == st.remembered - {e.key} && e.key !in r.remembered
    ensures r.(remembered := st.remembered, published := st.published, errorLog := st.errorLog) == st
  {
    Publish(st.(remembered := st.remembered - {e.key}),
            EventFor(Destroyed, e.key, SessionOf(e.oldValue)))
  }

  /** afterInvalidate: the key is forgotten and an Expired event announced. */
  function OnInvalidate(st: RepoState, e: EntryEvent): (r: RepoState)
    ensures r.remembered - {e.key} == st.remembered - {e.key} && e.key !in r.remembered
    ensures r.(remembered := st.remembered, published := st.published, errorLog := st.errorLog) == st
  {
    Publish(st.(remembered := st.remembered - {e.key}),
            EventFor(Expired, e.key, SessionOf(e.oldValue)))
  }

  /** handleDeleted: a Deleted event with the given session, if any; the memory is left
      alone. */
  function OnDeleted(st: RepoState, id: string, session: Option<Image>): (r: RepoState)
    ensures r.(published := st.published, errorLog := st.errorLog) == st
  {
    Publish(st, EventFor(Deleted, id, session))
  }

  datatype Callback =
    | AfterCreate(event: EntryEvent)
    | AfterDestroy(event: EntryEvent)
    | AfterInvalidate(event: EntryEvent)
    | HandleDeleted(id: string, session: Option<Image>)

  function Step(st: RepoState, cb: Callback): RepoState {
    match cb
    case AfterCreate(e) => OnCreate(st, e)
    case AfterDestroy(e) => OnDestroy(st, e)
    case AfterInvalidate(e) => OnInvalidate(st, e)
    case HandleDeleted(id, s) => OnDeleted(st, id, s)
  }

  /** The state after a sequence of callbacks, in order. */
  function Run(st: RepoState, cbs: seq<Callback>): RepoState
    decreases |cbs|
  {
    if cbs == [] then st else Run(Step(st, cbs[0]), cbs[1..])
  }

  // ---------------------------------------------------------------------------
  // Classification

  /** Nothing but CREATE is a create: UPDATE and LOCAL_LOAD_CREATE included, whatever the
      key and the values; afterCreate then changes nothing. */
  lemma OnlyCreateOperationsCreate(st: RepoState, e: EntryEvent)
    requires e.op != Create
    ensures !IsCreateEvent(st, e)
    ensures OnCreate(st, e) == st
  {
  }

  /** In a proxy region a CREATE is a create exactly when its key is not remembered and
      its new value is a session or null. */
  lemma ProxyCreateRule(st: RepoState, e: EntryEvent)
    requires IsProxy(st.policy) && e.op == Create
    ensures IsCreateEvent(st, e) <==> e.key !in st.remembered && !e.newValue.Foreign?
  {
  }

  /** In any other region the memory is not consulted: a CREATE is a create exactly when
      its new value is a session or null, remembered key or not. */
  lemma NonProxyCreateRule(st: RepoState, e: EntryEvent, memory: set<string>)
    requires !IsProxy(st.policy) && e.op == Create
    ensures IsCreateEvent(st, e) <==> !e.newValue.Foreign?
    ensures IsCreateEvent(st.(remembered := memory), e) == IsCreateEvent(st, e)
  {
  }

  // ---------------------------------------------------------------------------
  // Publication

  /** publishEvent delivers exactly the event, or logs exactly one error line for it and
      delivers nothing. */
  lemma PublishOutcome(st: RepoState, ev: SessionEvent)
    ensures st.publisher.Delivering? ==>
      Publish(st, ev).published == st.published + [ev] && Publish(st, ev).errorLog == st.errorLog
    ensures st.publisher.Throwing? ==>
      && Publish(st, ev).published == st.published
      && Publish(st, ev).errorLog == st.errorLog + [ErrorLine(ev, st.source)]
    ensures |Publish(st, ev).published| + |Publish(st, ev).errorLog|
         == |st.published| + |st.errorLog| + 1
  {
  }

  /** afterCreate announces a create as one Created event: for a session, the event
      carries it and its own id; for a null new value, the key and no session. Anything
      that is not a create publishes and logs nothing. */
  lemma CreateAnnouncement(st: RepoState, e: EntryEvent)
    requires st.publisher.Delivering?
    ensures IsCreateEvent(st, e) && e.newValue.SessionValue? ==>
      OnCreate(st, e).published
      == st.published + [SessionEvent(Created, e.newValue.session.id, Some(e.newValue.session))]
    ensures IsCreateEvent(st, e) && e.newValue.Absent? ==>
      OnCreate(st, e).published == st.published + [SessionEvent(Created, e.key, None)]
    ensures !IsCreateEvent(st, e) ==> OnCreate(st, e).published == st.published
    ensures OnCreate(st, e).errorLog == st.errorLog
  {
  }

  /** afterDestroy, afterInvalidate and handleDeleted each announce exactly one event.
      When the old value (or the session argument) is a session, the event carries it and
      its own id; otherwise it carries the key (or the id argument) and no session. */
  lemma RemovalAnnouncements(st: RepoState, e: EntryEvent, id: string, session: Option<Image>)
    requires st.publisher.Delivering?
    ensures e.oldValue.SessionValue? ==>
      && OnDestroy(st, e).published
         == st.published + [SessionEvent(Destroyed, e.oldValue.session.id, Some(e.oldValue.session))]
      && OnInvalidate(st, e).published
         == st.published + [SessionEvent(Expired, e.oldValue.session.id, Some(e.oldValue.session))]
    ensures !e.oldValue.SessionValue? ==>
      && OnDestroy(st, e).published == st.published + [SessionEvent(Destroyed, e.key, None)]
      && OnInvalidate(st, e).published == st.published + [SessionEvent(Expired, e.key, None)]
    ensures session.Some? ==>
      OnDeleted(st, id, session).published
      == st.published + [SessionEvent(Deleted, session.value.id, session)]
    ensures session.None? ==>
      OnDeleted(st, id, session).published == st.published + [SessionEvent(Deleted, id, None)]
  {
  }

  // ---------------------------------------------------------------------------
  // Duplicate suppression

  /** In a proxy region a create, once announced, is not announced again: replaying it
      changes nothing. */
  lemma ReplayedCreateIsSuppressed(st: RepoState, e: EntryEvent)
    requires IsProxy(st.policy) && IsCreateEvent(st, e)
    ensures !IsCreateEvent(OnCreate(st, e), e)
    ensures OnCreate(OnCreate(st, e), e) == OnCreate(st, e)
  {
  }

  /** Invalidation or destruction of the key makes a CREATE for it a create again. */
  lemma RemovalMakesCreatable(st: RepoState, removal: EntryEvent, e: EntryEvent)
    requires e.op == Create && !e.newValue.Foreign? && removal.key == e.key
    ensures IsCreateEvent(OnInvalidate(st, removal), e)
    ensures IsCreateEvent(OnDestroy(st, removal), e)
  {
  }

  /** The scenario create, duplicate create, invalidate, create for one id in a proxy
      region announces exactly Created, Expired, Created, each for the session's id. */
  lemma CreateExpireRecreate(st: RepoState, id: string, s: Image)
    requires IsProxy(st.policy) && st.publisher.Delivering? && id !in st.remembered
    ensures
      var create := EntryEvent(Create, id, Absent, SessionValue(s));
      var expire := EntryEvent(Invalidate, id, SessionValue(s), Absent);
      Run(st, [AfterCreate(create), AfterCreate(create), AfterInvalidate(expire), AfterCreate(create)]).published
      == st.published + [SessionEvent(Created, s.id, Some(s)), SessionEvent(Expired, s.id, Some(s)),
                         SessionEvent(Created, s.id, Some(s))]
  {
    var create := EntryEvent(Create, id, Absent, SessionValue(s));
    var expire := EntryEvent(Invalidate, id, SessionValue(s), Absent);
    var cbs := [AfterCreate(create), AfterCreate(create), AfterInvalidate(expire), AfterCreate(create)];
    var s1 := OnCreate(st, create);
    var s2 := OnCreate(s1, create);
    var s3 := OnInvalidate(s2, expire);
    var s4 := OnCreate(s3, create);
    assert s2 == s1;
    assert Run(st, cbs) == Run(s1, cbs[1..]);
    assert Run(s1, cbs[1..]) == Run(s2, cbs[2..]);
    assert Run(s2, cbs[2..]) == Run(s3, cbs[3..]);
    assert Run(s3, cbs[3..]) == Run(s4, []);
  }

  /** In any other region every CREATE whose new value is a session or null is announced,
      however often it repeats. */
  lemma NonProxyAnnouncesEveryCreate(st: RepoState, e: EntryEvent)
    requires !IsProxy(st.policy) && st.publisher.Delivering?
    requires e.op == Create && !e.newValue.Foreign?
    ensures OnCreate(st, e).published == st.published + [EventFor(Created, e.key, SessionOf(e.newValue))]
    ensures OnCreate(OnCreate(st, e), e).published
         == st.published + [EventFor(Created, e.key, SessionOf(e.newValue)),
                            EventFor(Created, e.key, SessionOf(e.newValue))]
  {
  }

  // ---------------------------------------------------------------------------
  // Announced sessions form a well-bracketed history

  /** Whether the history leaves the session open: its last Created is not followed by
      an Expired or Destroyed for the same id. */
  predicate Open(evs: seq<SessionEvent>, id: string)
    decreases |evs|
  {
    if evs == [] then false
    else
      var last := evs[|evs| - 1];
      if last.sessionId == id && last.kind == Created then true
      else if last.sessionId == id && (last.kind == Expired || last.kind == Destroyed) then false
      else Open(evs[..|evs| - 1], id)
  }

  /** No Created is announced for a session that is still open. */
  predicate NoReopen(evs: seq<SessionEvent>) {
    forall i :: 0 <= i < |evs| && evs[i].kind == Created ==> !Open(evs[..i], evs[i].sessionId)
  }

  /** Every open session is remembered. */
  ghost predicate Tracks(st: RepoState) {
    forall id :: Open(st.published, id) ==> id in st.remembered
  }

  lemma OpenSnoc(evs: seq<SessionEvent>, ev: SessionEvent, id: string)
    ensures Open(evs + [ev], id) ==
      if ev.sessionId == id && ev.kind == Created then true
      else if ev.sessionId == id && (ev.kind == Expired || ev.kind == Destroyed) then false
      else Open(evs, id)
  {
    assert (evs + [ev])[..|evs|] == evs;
  }

  lemma NoReopenSnoc(evs: seq<SessionEvent>, ev: SessionEvent)
    requires NoReopen(evs)
    requires ev.kind == Created ==> !Open(evs, ev.sessionId)
    ensures NoReopen(evs + [ev])
  {
    var all := evs + [ev];
    forall i | 0 <= i < |all| && all[i].kind == Created
      ensures !Open(all[..i], all[i].sessionId)
    {
      if i < |evs| {
        assert all[..i] == evs[..i];
        assert all[i] == evs[i];
      } else {
        assert all[..i] == evs;
      }
    }
  }

  /** A callback whose entry event carries sessions only under their own ids, as a
      session region keys each session by its id. */
  predicate KeyedById(cb: Callback) {
    match cb
    case AfterCreate(e) => e.newValue.SessionValue? ==> e.newValue.session.id == e.key
    case AfterDestroy(e) => e.oldValue.SessionValue? ==> e.oldValue.session.id == e.key
    case AfterInvalidate(e) => e.oldValue.SessionValue? ==> e.oldValue.session.id == e.key
    case HandleDeleted(_, _) => true
  }

  /** One callback, in a proxy region with a delivering publisher, keeps every open
      session remembered and announces no Created for an open session. */
  lemma StepKeepsHistory(st: RepoState, cb: Callback)
    requires IsProxy(st.policy) && st.publisher.Delivering?
    requires KeyedById(cb)
    requires Tracks(st) && NoReopen(st.published)
    ensures Step(st, cb).policy == st.policy && Step(st, cb).publisher == st.publisher
    ensures Tracks(Step(st, cb)) && NoReopen(Step(st, cb).published)
  {
    var next := Step(st, cb);
    match cb {
      case AfterCreate(e) =>
        if IsCreateEvent(st, e) {
          var ev := EventFor(Created, e.key, SessionOf(e.newValue));
          assert next.published == st.published + [ev];
          NoReopenSnoc(st.published, ev);
          forall id | Open(next.published, id) ensures id in next.remembered {
            OpenSnoc(st.published, ev, id);
          }
        }
      case AfterDestroy(e) =>
        var ev := EventFor(Destroyed, e.key, SessionOf(e.oldValue));
        assert next.published == st.published + [ev];
        NoReopenSnoc(st.published, ev);
        forall id | Open(next.published, id) ensures id in next.remembered {
          OpenSnoc(st.published, ev, id);
        }
      case AfterInvalidate(e) =>
        var ev := EventFor(Expired, e.key, SessionOf(e.oldValue));
        assert next.published == st.published + [ev];
        NoReopenSnoc(st.published, ev);
        forall id | Open(next.published, id) ensures id in next.remembered {
          OpenSnoc(st.published, ev, id);
        }
      case HandleDeleted(id', s) =>
        var ev := EventFor(Deleted, id', s);
        assert next.published == st.published + [ev];
        NoReopenSnoc(st.published, ev);
        forall id | Open(next.published, id) ensures id in next.remembered {
          OpenSnoc(st.published, ev, id);
        }
    }
  }

  /** In a proxy region with a delivering publisher, from any state whose open sessions
      are all remembered (a fresh repository among them), no sequence of callbacks on
      sessions keyed by their ids ever announces a session as created while it is still
      open: duplicate creates are suppressed until the session expires or is destroyed. */
  lemma {:induction false} HistoryNeverReopens(st: RepoState, cbs: seq<Callback>)
    requires IsProxy(st.policy) && st.publisher.Delivering?
    requires forall i :: 0 <= i < |cbs| ==> KeyedById(cbs[i])
    requires Tracks(st) && NoReopen(st.published)
    ensures Tracks(Run(st, cbs)) && NoReopen(Run(st, cbs).published)
    decreases |cbs|
  {
    if cbs != [] {
      StepKeepsHistory(st, cbs[0]);
      assert forall i :: 0 <= i < |cbs[1..]| ==> cbs[1..][i] == cbs[i + 1];
      HistoryNeverReopens(Step(st, cbs[0]), cbs[1..]);
    }
  }

  lemma InitialHistory(policy: DataPolicy, publisher: Publisher, source: string)
    ensures Tracks(Initial(policy, publisher, source))
    ensures NoReopen(Initial(policy, publisher, source).published)
  {
  }

  class SessionRepository {
    var dataPolicy: DataPolicy
    var remembered: set<string>
    var publisher: Publisher
    var published: seq<SessionEvent>
    var errorLog: seq<string>
    var deleted: seq<string>
    var maxInactiveIntervalInSeconds: int
    const source: string

    function State(): RepoState
      reads this
    {
      RepoState(dataPolicy, remembered, publisher, source, published, errorLog, deleted,
                maxInactiveIntervalInSeconds)
    }

    constructor (policy: DataPolicy, initialPublisher: Publisher, name: string)
      ensures State() == Initial(policy, initialPublisher, name)
    {
      dataPolicy := policy;
      remembered := {};
      publisher := initialPublisher;
      published := [];
      errorLog := [];
      deleted := [];
      maxInactiveIntervalInSeconds := DEFAULT_MAX_INACTIVE_INTERVAL_IN_SECONDS;
      source := name;
    }

    /** The region the repository listens to is replaced (its data policy is what matters). */
    method SetRegion(policy: DataPolicy)
      modifies this
      ensures State() == old(State()).(policy := policy)
    {
      dataPolicy := policy;
    }

    method SetApplicationEventPublisher(p: Publisher)
      modifies this
      ensures State() == old(State()).(publisher := p)
    {
      publisher := p;
    }

    /** Any interval is accepted, negative and extreme ones included. */
    method SetMaxInactiveIntervalInSeconds(interval: int)
      modifies this
      ensures State() == old(State()).(maxInactiveIntervalInSeconds := interval)
    {
      maxInactiveIntervalInSeconds := interval;
    }

    method Remember(id: string)
      modifies this
      ensures State() == old(State()).(remembered := old(remembered) + {id})
    {
      remembered := remembered + {id};
    }

    method Forget(id: string)
      modifies this
      ensures State() == old(State()).(remembered := old(remembered) - {id})
    {
      remembered := remembered - {id};
    }

    predicate IsCreate(e: EntryEvent)
      reads this
    {
      IsCreateEvent(State(), e)
    }

    method PublishEvent(ev: SessionEvent)
      modifies this
      ensures State() == Publish(old(State()), ev)
    {
      match publisher {
        case Delivering =>
          published := published + [ev];
        case Throwing =>
          errorLog := errorLog + [ErrorLine(ev, source)];
      }
    }

    /** handleCreated: the hook afterCreate calls just before publication; the event
        takes the session's id when a session is given. */
    method HandleCreated(id: string, session: Option<Image>)
      modifies this
      ensures State() == Publish(old(State()), EventFor(Created, id, session))
    {
      PublishEvent(EventFor(Created, id, session));
    }

    method AfterCreate(e: EntryEvent)
      modifies this
      ensures State() == OnCreate(old(State()), e)
    {
      if IsCreate(e) {
        var id := e.key;
        Remember(id);
        HandleCreated(id, SessionOf(e.newValue));
      }
    }

    method AfterDestroy(e: EntryEvent)
      modifies this
      ensures State() == OnDestroy(old(State()), e)
    {
      var id := e.key;
      Forget(id);
      PublishEvent(EventFor(Destroyed, id, SessionOf(e.oldValue)));
    }

    method AfterInvalidate(e: EntryEvent)
      modifies this
      ensures State() == OnInvalidate(old(State()), e)
    {
      var id := e.key;
      Forget(id);
      PublishEvent(EventFor(Expired, id, SessionOf(e.oldValue)));
    }

    method HandleDeleted(id: string, session: Option<Image>)
      modifies this
      ensures State() == OnDeleted(old(State()), id, session)
    {
      PublishEvent(EventFor(Deleted, id, session));
    }

    /** delete(id): removing the entry from the region is the cache's business; the
        repository's part is recorded as the id it was asked to delete. */
    method Delete(id: string)
      modifies this
      ensures State() == old(State()).(deleted := old(deleted) + [id])
    {
      deleted := deleted + [id];
    }

    /** delete(session): delete(id) for the session's id (the Java method returns null). */
    method DeleteSession(session: Image)
      modifies this
      ensures State() == old(State()).(deleted := old(deleted) + [session.id])
    {
      Delete(session.id);
    }

    /** touch(session): the session's last-accessed time set to now; the same session back. */
    method Touch(session: GemFireSession, now: int) returns (same: GemFireSession)
      modifies session
      ensures same == session
      ensures session.State() == TouchedAt(old(session.State()), now)
    {
      session.SetLastAccessedTime(now);
      same := session;
    }
  }
}

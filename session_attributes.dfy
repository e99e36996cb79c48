/**
 * GemFireSessionAttributes: a session's attribute map together with the set of
 * attribute names changed since the last delta flush ("deltas").
 *
 * The abstract state is a Store value; the class's methods are specified by the
 * Store functions below, and the properties the store promises (delta tracking,
 * full and delta round trips) are lemmas about those functions.
 */
module Attributes {
  import opened DataStream

  datatype Store = Store(attributes: map<string, Value>, deltas: set<string>)

  const EmptyStore: Store := Store(map[], {})

  function Lookup(m: map<string, Value>, name: string): Option<Value> {
    if name in m then Some(m[name]) else None
  }

  /** The map after storing value under name, a null value removing the name. */
  function SetMap(m: map<string, Value>, name: string, value: Option<Value>): map<string, Value> {
    match value
    case None => m - {name}
    case Some(v) => m[name := v]
  }

  /** removeAttribute: a name that was present is removed and becomes a delta. */
  function Remove(s: Store, name: string): (r: Store)
    ensures Lookup(r.attributes, name) == None
    ensures forall n :: n != name ==> Lookup(r.attributes, n) == Lookup(s.attributes, n)
    ensures name in r.deltas <==> name in s.deltas || name in s.attributes
    ensures forall n :: n != name ==> (n in r.deltas <==> n in s.deltas)
  {
    if name in s.attributes then Store(s.attributes - {name}, s.deltas + {name}) else s
  }

  /** setAttribute: null behaves as removeAttribute; otherwise the value is stored and
      the name becomes a delta unless it already held an equal value. */
  function Set(s: Store, name: string, value: Option<Value>): Store {
    match value
    case None => Remove(s, name)
    case Some(v) =>
      Store(s.attributes[name := v],
            if Lookup(s.attributes, name) == value then s.deltas else s.deltas + {name})
  }

  predicate StoreHasDelta(s: Store) {
    s.deltas != {}
  }

  function Restrict<V>(m: map<string, V>, names: set<string>): map<string, V> {
    map n | n in m && n in names :: m[n]
  }

  /** from(Session) / from(GemFireSessionAttributes): setAttribute for every name of the
      source, so the source's values win and every name whose value changes is a delta. */
  function Merge(s: Store, source: map<string, Value>): (r: Store)
    ensures forall n :: n in source ==> Lookup(r.attributes, n) == Some(source[n])
    ensures forall n :: n !in source ==> Lookup(r.attributes, n) == Lookup(s.attributes, n)
    ensures forall n :: n in r.deltas <==>
      n in s.deltas || Lookup(s.attributes, n) != Lookup(r.attributes, n)
  {
    Store(s.attributes + source,
          s.deltas + set n | n in source && Lookup(s.attributes, n) != Some(source[n]))
  }

  /** setAttribute changes the looked-up value of its name and of no other name, and
      adds its name to the deltas exactly when the looked-up value changes. */
  lemma SetTracksChanges(s: Store, name: string, value: Option<Value>)
    ensures Lookup(Set(s, name, value).attributes, name) == value
    ensures forall n :: n != name ==>
      Lookup(Set(s, name, value).attributes, n) == Lookup(s.attributes, n)
    ensures name in Set(s, name, value).deltas <==>
      name in s.deltas || Lookup(s.attributes, name) != value
    ensures forall n :: n != name ==> (n in Set(s, name, value).deltas <==> n in s.deltas)
  {
  }

  /** The store agrees with base (the attributes as of the last flush) on every name
      that is not a delta. */
  ghost predicate Synced(s: Store, base: map<string, Value>) {
    forall n :: n !in s.deltas ==> Lookup(s.attributes, n) == Lookup(base, n)
  }

  /** Every change goes through setAttribute, so the deltas keep covering every name on
      which the store and its last flushed state differ. */
  lemma SetKeepsSynced(s: Store, base: map<string, Value>, name: string, value: Option<Value>)
    requires Synced(s, base)
    ensures Synced(Set(s, name, value), base)
  {
    SetTracksChanges(s, name, value);
  }

  lemma MergeKeepsSynced(s: Store, base: map<string, Value>, source: map<string, Value>)
    requires Synced(s, base)
    ensures Synced(Merge(s, source), base)
  {
    var t := Merge(s, source);
    forall n | n !in t.deltas
      ensures Lookup(t.attributes, n) == Lookup(base, n)
    {
      if n in source {
        assert Lookup(s.attributes, n) == Some(source[n]);
      }
    }
  }

  /** One step of from(..): copying one more source name is one setAttribute call. */
  lemma MergeStep(s: Store, source: map<string, Value>, done: set<string>, name: string)
    requires name in source && name !in done
    ensures Merge(s, Restrict(source, done + {name}))
         == Set(Merge(s, Restrict(source, done)), name, Some(source[name]))
  {
    var before := Restrict(source, done);
    var after := Restrict(source, done + {name});
    assert after == before[name := source[name]];
    var m := Merge(s, before);
    assert Lookup(m.attributes, name) == Lookup(s.attributes, name);
    assert Merge(s, after).attributes == Set(m, name, Some(source[name])).attributes;
  }

  // ---------------------------------------------------------------------------
  // Stream encodings

  function PayloadOf(m: map<string, Value>, name: string): Payload {
    if name in m then Val(m[name]) else Null
  }

  /** writeUTF(name) then writeObject(value) for each name, in the order given. */
  function Pairs(m: map<string, Value>, names: seq<string>): seq<Token>
    decreases |names|
  {
    if names == [] then []
    else [UTF(names[0]), Obj(PayloadOf(m, names[0]))] + Pairs(m, names[1..])
  }

  /** The (name, value-or-null) pairs those tokens carry. */
  function PairList(m: map<string, Value>, names: seq<string>): seq<(string, Option<Value>)>
    decreases |names|
  {
    if names == [] then [] else [(names[0], Lookup(m, names[0]))] + PairList(m, names[1..])
  }

  predicate Distinct(names: seq<string>) {
    forall i, j :: 0 <= i < j < |names| ==> names[i] != names[j]
  }

  /** order lists every name of the set exactly once (the map's iteration order). */
  ghost predicate Enumerates(order: seq<string>, names: set<string>) {
    && Distinct(order)
    && |order| == |names|
    && (forall n :: n in names <==> n in order)
  }

  /** toData: the attribute count, then every (name, value) pair. */
  function AttributesData(m: map<string, Value>, order: seq<string>): seq<Token> {
    [Int(|m|)] + Pairs(m, order)
  }

  /** toDelta: the delta count, then (name, current value or null) for each delta. */
  function DeltaData(s: Store, order: seq<string>): seq<Token> {
    [Int(|s.deltas|)] + Pairs(s.attributes, order)
  }

  lemma {:induction false} PairsSnoc(m: map<string, Value>, names: seq<string>, name: string)
    ensures Pairs(m, names + [name]) == Pairs(m, names) + [UTF(name), Obj(PayloadOf(m, name))]
    decreases |names|
  {
    if names != [] {
      assert (names + [name])[1..] == names[1..] + [name];
      PairsSnoc(m, names[1..], name);
    }
  }

  // ---------------------------------------------------------------------------
  // Stream decoding

  /** readObject of an attribute value: null or a value. */
  function ReadValue(input: seq<Token>): Result<(Option<Value>, seq<Token>)> {
    match ReadObject(input)
    case Err(f) => Err(f)
    case Ok((p, rest)) =>
      match p
      case Null => Ok((None, rest))
      case Val(v) => Ok((Some(v), rest))
      case AttributesObject(_) => Err(UnexpectedToken)
  }

  /** count (name, value) pairs; a count that is not positive reads nothing. */
  function ReadPairs(input: seq<Token>, count: int): Result<(seq<(string, Option<Value>)>, seq<Token>)>
    decreases if count > 0 then count else 0
  {
    if count <= 0 then Ok(([], input))
    else
      match ReadUTF(input)
      case Err(f) => Err(f)
      case Ok((name, afterName)) =>
        match ReadValue(afterName)
        case Err(f) => Err(f)
        case Ok((value, afterValue)) =>
          match ReadPairs(afterValue, count - 1)
          case Err(f) => Err(f)
          case Ok((more, rest)) => Ok(([(name, value)] + more, rest))
  }

  /** readInt for the count, then that many pairs: the layout of toData and of toDelta. */
  function ReadCounted(input: seq<Token>): Result<(seq<(string, Option<Value>)>, seq<Token>)> {
    match ReadInt(input)
    case Err(f) => Err(f)
    case Ok((count, rest)) => ReadPairs(rest, count)
  }

  function Prepend(ps: seq<(string, Option<Value>)>, r: Result<(seq<(string, Option<Value>)>, seq<Token>)>)
    : Result<(seq<(string, Option<Value>)>, seq<Token>)>
  {
    match r
    case Err(f) => Err(f)
    case Ok((qs, rest)) => Ok((ps + qs, rest))
  }

  /** The received pairs as a map, a later pair for a name overriding an earlier one. */
  function Collect(ps: seq<(string, Option<Value>)>): map<string, Option<Value>>
    decreases |ps|
  {
    if ps == [] then map[]
    else
      var later := Collect(ps[1..]);
      if ps[0].0 in later then later else later[ps[0].0 := ps[0].1]
  }

  function Names(ps: seq<(string, Option<Value>)>): set<string> {
    set i | 0 <= i < |ps| :: ps[i].0
  }

  /** m with every received name set to its received value, null removing the name. */
  function Overlay(m: map<string, Value>, received: map<string, Option<Value>>): map<string, Value> {
    map n | n in m.Keys + received.Keys && (n in received ==> received[n].Some?) ::
      if n in received then received[n].value else m[n]
  }

  /** fromDelta's effect: the received values overwrite, and exactly the received names
      stop being deltas. */
  function ApplyReceived(s: Store, received: map<string, Option<Value>>): Store {
    Store(Overlay(s.attributes, received), s.deltas - received.Keys)
  }

  /** The store after fromData of pairs ps: nothing but the pairs, no deltas. */
  function DataImage(ps: seq<(string, Option<Value>)>): Store {
    Store(Overlay(map[], Collect(ps)), {})
  }

  /** The store after fromDelta of pairs ps. */
  function DeltaImage(s: Store, ps: seq<(string, Option<Value>)>): Store {
    ApplyReceived(s, Collect(ps))
  }

  lemma PrependAssoc(ps: seq<(string, Option<Value>)>, qs: seq<(string, Option<Value>)>,
                     r: Result<(seq<(string, Option<Value>)>, seq<Token>)>)
    ensures Prepend(ps, Prepend(qs, r)) == Prepend(ps + qs, r)
  {
    match r
    case Err(_) =>
    case Ok((xs, rest)) =>
      assert ps + (qs + xs) == (ps + qs) + xs;
  }

  lemma PrependNothing(r: Result<(seq<(string, Option<Value>)>, seq<Token>)>)
    ensures Prepend([], r) == r
  {
    match r
    case Err(_) =>
    case Ok((xs, rest)) =>
      assert [] + xs == xs;
  }

  lemma {:induction false} CollectSnoc(ps: seq<(string, Option<Value>)>, p: (string, Option<Value>))
    ensures Collect(ps + [p]) == Collect(ps)[p.0 := p.1]
    decreases |ps|
  {
    if ps != [] {
      assert (ps + [p])[1..] == ps[1..] + [p];
      CollectSnoc(ps[1..], p);
    } else {
      assert [p][1..] == [];
    }
  }

  lemma {:induction false} CollectKeys(ps: seq<(string, Option<Value>)>)
    ensures Collect(ps).Keys == Names(ps)
    decreases |ps|
  {
    if ps != [] {
      CollectKeys(ps[1..]);
      assert Names(ps) == {ps[0].0} + Names(ps[1..]) by {
        forall n | n in Names(ps) ensures n in {ps[0].0} + Names(ps[1..]) {
          var i :| 0 <= i < |ps| && ps[i].0 == n;
          if i > 0 { assert ps[1..][i - 1].0 == n; }
        }
        forall n | n in Names(ps[1..]) ensures n in Names(ps) {
          var i :| 0 <= i < |ps[1..]| && ps[1..][i].0 == n;
          assert ps[i + 1].0 == n;
        }
      }
    }
  }

  lemma OverlayUpdate(m: map<string, Value>, received: map<string, Option<Value>>, name: string, value: Option<Value>)
    ensures Overlay(m, received[name := value]) == SetMap(Overlay(m, received), name, value)
  {
  }

  /** Reading back the pairs written for a list of names gives the names' values. */
  lemma {:induction false} ReadPairsOfPairs(m: map<string, Value>, names: seq<string>, rest: seq<Token>)
    ensures ReadPairs(Pairs(m, names) + rest, |names|) == Ok((PairList(m, names), rest))
    decreases |names|
  {
    if names != [] {
      var tail := Pairs(m, names[1..]) + rest;
      assert Pairs(m, names) + rest == [UTF(names[0]), Obj(PayloadOf(m, names[0]))] + tail;
      assert (Pairs(m, names) + rest)[1..] == [Obj(PayloadOf(m, names[0]))] + tail;
      assert ReadUTF(Pairs(m, names) + rest) == Ok((names[0], [Obj(PayloadOf(m, names[0]))] + tail));
      assert ReadValue([Obj(PayloadOf(m, names[0]))] + tail) == Ok((Lookup(m, names[0]), tail));
      ReadPairsOfPairs(m, names[1..], rest);
    } else {
      assert Pairs(m, names) + rest == rest;
    }
  }

  /** Collecting the pairs of distinct names maps each name to its value. */
  lemma {:induction false} CollectPairList(m: map<string, Value>, names: seq<string>)
    requires Distinct(names)
    ensures Collect(PairList(m, names)) == map n | n in names :: Lookup(m, n)
    decreases |names|
  {
    if names != [] {
      var tail := names[1..];
      assert Distinct(tail) by {
        forall i, j | 0 <= i < j < |tail| ensures tail[i] != tail[j] {
          assert tail[i] == names[i + 1] && tail[j] == names[j + 1];
        }
      }
      CollectPairList(m, tail);
      assert PairList(m, names)[1..] == PairList(m, tail);
      assert names[0] !in tail by {
        forall k | 0 <= k < |tail| ensures tail[k] != names[0] {
          assert tail[k] == names[k + 1];
        }
      }
      assert forall n :: n in names <==> n == names[0] || n in tail;
    }
  }

  /** Full round trip: fromData of what toData wrote holds exactly the written
      attributes and no deltas, whatever order the map was iterated in. */
  lemma DataRoundTrip(m: map<string, Value>, order: seq<string>, rest: seq<Token>)
    requires Enumerates(order, m.Keys)
    ensures ReadCounted(AttributesData(m, order) + rest) == Ok((PairList(m, order), rest))
    ensures DataImage(PairList(m, order)) == Store(m, {})
  {
    ReadPairsOfPairs(m, order, rest);
    assert AttributesData(m, order) + rest == [Int(|m|)] + (Pairs(m, order) + rest);
    CollectPairList(m, order);
    var c := map n | n in order :: Lookup(m, n);
    assert forall n :: n in c <==> n in m;
    assert Overlay(map[], c) == m;
  }

  /** Two maps that agree on every lookup are equal. */
  lemma LookupsDetermineMap(a: map<string, Value>, b: map<string, Value>)
    requires forall n :: Lookup(a, n) == Lookup(b, n)
    ensures a == b
  {
    forall n ensures n in a <==> n in b {
      assert Lookup(a, n) == Lookup(b, n);
    }
    forall n | n in a ensures a[n] == b[n] {
      assert Lookup(a, n) == Lookup(b, n);
    }
  }

  /** Overlaying the writer's current values for its deltas onto a reader that agrees
      with it elsewhere gives the writer's map. */
  lemma OverlaySynced(writer: Store, base: map<string, Value>, received: map<string, Option<Value>>)
    requires Synced(writer, base)
    requires received.Keys == writer.deltas
    requires forall n :: n in received ==> received[n] == Lookup(writer.attributes, n)
    ensures Overlay(base, received) == writer.attributes
  {
    var o := Overlay(base, received);
    forall n ensures Lookup(o, n) == Lookup(writer.attributes, n) {
      if n !in writer.deltas {
        assert Lookup(writer.attributes, n) == Lookup(base, n);
      }
    }
    LookupsDetermineMap(o, writer.attributes);
  }

  /** Delta round trip: a replica that agrees with the writer outside the writer's deltas
      ends up with the writer's attributes after fromDelta of what toDelta wrote; the
      received names stop being the replica's deltas, its other deltas stay. */
  lemma DeltaRoundTrip(writer: Store, replica: Store, order: seq<string>, rest: seq<Token>)
    requires Enumerates(order, writer.deltas)
    requires Synced(writer, replica.attributes)
    ensures ReadCounted(DeltaData(writer, order) + rest)
         == Ok((PairList(writer.attributes, order), rest))
    ensures DeltaImage(replica, PairList(writer.attributes, order))
         == Store(writer.attributes, replica.deltas - writer.deltas)
  {
    ReadPairsOfPairs(writer.attributes, order, rest);
    assert DeltaData(writer, order) + rest == [Int(|writer.deltas|)] + (Pairs(writer.attributes, order) + rest);
    CollectPairList(writer.attributes, order);
    var c := map n | n in order :: Lookup(writer.attributes, n);
    assert c.Keys == writer.deltas;
    OverlaySynced(writer, replica.attributes, c);
  }

  /** After a flush there is nothing to send: the next toDelta writes a zero count. */
  lemma FlushedDeltaIsEmpty(m: map<string, Value>, order: seq<string>)
    requires Enumerates(order, {})
    ensures DeltaData(Store(m, {}), order) == [Int(0)]
  {
  }

  /** The flush cycle: two new attributes are two deltas; after a flush, re-setting an
      equal value leaves nothing to send, and changing one value makes it the only delta. */
  lemma FlushCycle()
    ensures
      var two := Set(Set(EmptyStore, "attrOne", Some(Text("testOne"))), "attrTwo", Some(Text("testTwo")));
      var flushed := Store(two.attributes, {});
      && two.deltas == {"attrOne", "attrTwo"}
      && !StoreHasDelta(Set(flushed, "attrOne", Some(Text("testOne"))))
      && Set(Set(flushed, "attrOne", Some(Text("testOne"))), "attrTwo", Some(Text("testThree"))).deltas
         == {"attrTwo"}
  {
    var one := Set(EmptyStore, "attrOne", Some(Text("testOne")));
    assert "attrTwo" != "attrOne";
    assert Lookup(one.attributes, "attrTwo") == None;
  }

  /** fromDelta overwrites only the received names and un-dirties only those names. */
  lemma DeltaTouchesOnlyReceived(s: Store, ps: seq<(string, Option<Value>)>)
    ensures DeltaImage(s, ps).deltas == s.deltas - Names(ps)
    ensures forall n :: n !in Names(ps) ==>
      Lookup(DeltaImage(s, ps).attributes, n) == Lookup(s.attributes, n)
  {
    CollectKeys(ps);
  }

  /** One step of applying received deltas: setAttribute, then the name stops being a delta. */
  lemma ApplyReceivedStep(s: Store, received: map<string, Option<Value>>, done: set<string>, name: string)
    requires name in received && name !in done
    ensures
      var t := Set(ApplyReceived(s, Restrict(received, done)), name, received[name]);
      ApplyReceived(s, Restrict(received, done + {name})) == Store(t.attributes, t.deltas - {name})
  {
    var before := Restrict(received, done);
    assert Restrict(received, done + {name}) == before[name := received[name]];
    OverlayUpdate(s.attributes, before, name, received[name]);
    var a := ApplyReceived(s, before);
    assert Set(a, name, received[name]).attributes == SetMap(a.attributes, name, received[name]);
  }

  lemma EntrySetSize(m: map<string, Value>)
    ensures |set n | n in m :: (n, m[n])| == |m|
    decreases |m|
  {
    if m != map[] {
      var k :| k in m;
      var rest := m - {k};
      EntrySetSize(rest);
      var pairs := set n | n in m :: (n, m[n]);
      var restPairs := set n | n in rest :: (n, rest[n]);
      forall p | p in pairs ensures p in restPairs + {(k, m[k])} {
        var n :| n in m && p == (n, m[n]);
        if n != k { assert n in rest && p == (n, rest[n]); }
      }
      forall p | p in restPairs ensures p in pairs {
        var n :| n in rest && p == (n, rest[n]);
        assert n in m && p == (n, m[n]);
      }
      assert pairs == restPairs + {(k, m[k])};
      assert (k, m[k]) !in restPairs;
    }
  }

  /** The reading half of fromDelta: the count, then the pairs, gathered into a map
      (a later pair for a name overriding an earlier one). */
  method ReadDelta(input: seq<Token>) returns (r: Result<(map<string, Option<Value>>, seq<Token>)>)
    ensures r.Ok? <==> ReadCounted(input).Ok?
    ensures r.Ok? ==> r.value == (Collect(ReadCounted(input).value.0), ReadCounted(input).value.1)
  {
    var header := ReadInt(input);
    if header.Err? {
      return Err(header.failure);
    }
    var count, rest := header.value.0, header.value.1;
    ghost var read: seq<(string, Option<Value>)> := [];
    var received: map<string, Option<Value>> := map[];
    PrependNothing(ReadPairs(rest, count));
    while count > 0
      invariant ReadCounted(input) == Prepend(read, ReadPairs(rest, count))
      invariant received == Collect(read)
      decreases count
    {
      var name := ReadUTF(rest);
      if name.Err? {
        return Err(name.failure);
      }
      var value := ReadValue(name.value.1);
      if value.Err? {
        return Err(value.failure);
      }
      var pair := (name.value.0, value.value.0);
      CollectSnoc(read, pair);
      received := received[pair.0 := pair.1];
      assert ReadPairs(rest, count) == Prepend([pair], ReadPairs(value.value.1, count - 1));
      PrependAssoc(read, [pair], ReadPairs(value.value.1, count - 1));
      read := read + [pair];
      rest := value.value.1;
      count := count - 1;
    }
    assert read + [] == read;
    return Ok((received, rest));
  }

  class GemFireSessionAttributes {
    var attributes: map<string, Value>
    var deltas: set<string>

    function State(): Store
      reads this
    {
      Store(attributes, deltas)
    }

    constructor ()
      ensures State() == EmptyStore
    {
      attributes := map[];
      deltas := {};
    }

    function GetAttribute(name: string): Option<Value>
      reads this
    {
      Lookup(attributes, name)
    }

    function GetAttributeNames(): set<string>
      reads this
    {
      attributes.Keys
    }

    predicate HasDelta()
      reads this
    {
      StoreHasDelta(State())
    }

    /** entrySet, as a snapshot of the current map: one (name, value) entry per attribute. */
    function EntrySet(): (entries: set<(string, Value)>)
      reads this
      ensures forall n, v :: (n, v) in entries <==> Lookup(attributes, n) == Some(v)
      ensures |entries| == |attributes|
    {
      EntrySetSize(attributes);
      set n | n in attributes :: (n, attributes[n])
    }

    method SetAttribute(name: string, value: Option<Value>) returns (previous: Option<Value>)
      modifies this
      ensures previous == Lookup(old(attributes), name)
      ensures State() == Set(old(State()), name, value)
    {
      match value {
        case None =>
          previous := RemoveAttribute(name);
        case Some(v) =>
          previous := Lookup(attributes, name);
          attributes := attributes[name := v];
          if previous != value {
            deltas := deltas + {name};
          }
      }
    }

    method RemoveAttribute(name: string) returns (previous: Option<Value>)
      modifies this
      ensures previous == Lookup(old(attributes), name)
      ensures State() == Remove(old(State()), name)
    {
      previous := Lookup(attributes, name);
      if previous.Some? {
        attributes := attributes - {name};
        deltas := deltas + {name};
      }
    }

    /** from(Session) and from(GemFireSessionAttributes): copy every source attribute in. */
    method From(source: map<string, Value>)
      modifies this
      ensures State() == Merge(old(State()), source)
    {
      ghost var start := State();
      var remaining := source.Keys;
      assert Restrict(source, {}) == map[];
      assert Merge(start, map[]) == start;
      while remaining != {}
        invariant remaining <= source.Keys
        invariant State() == Merge(start, Restrict(source, source.Keys - remaining))
        decreases remaining
      {
        var name :| name in remaining;
        MergeStep(start, source, source.Keys - remaining, name);
        assert source.Keys - (remaining - {name}) == (source.Keys - remaining) + {name};
        var _ := SetAttribute(name, Some(source[name]));
        remaining := remaining - {name};
      }
      assert Restrict(source, source.Keys) == source;
    }

    /** The (name, value) pairs for a set of names, in the order the set is iterated. */
    method WritePairs(names: set<string>) returns (out: seq<Token>, order: seq<string>)
      ensures Enumerates(order, names)
      ensures out == Pairs(attributes, order)
    {
      out, order := [], [];
      var remaining := names;
      while remaining != {}
        invariant remaining <= names
        invariant Distinct(order)
        invariant forall n :: n in order <==> n in names - remaining
        invariant |order| + |remaining| == |names|
        invariant out == Pairs(attributes, order)
        decreases remaining
      {
        var name :| name in remaining;
        assert name !in order;
        assert Distinct(order + [name]) by {
          forall i, j | 0 <= i < j < |order| + 1 ensures (order + [name])[i] != (order + [name])[j] {
            if j == |order| {
              assert (order + [name])[i] == order[i] && order[i] in order;
            }
          }
        }
        PairsSnoc(attributes, order, name);
        out := out + [UTF(name), Obj(PayloadOf(attributes, name))];
        order := order + [name];
        remaining := remaining - {name};
      }
    }

    /** toData: the attribute count, then every (name, value) pair. */
    method ToData() returns (out: seq<Token>, order: seq<string>)
      ensures Enumerates(order, attributes.Keys)
      ensures out == AttributesData(attributes, order)
    {
      var pairs;
      pairs, order := WritePairs(attributes.Keys);
      out := [Int(|attributes|)] + pairs;
    }

    /** fromData: clear, read the count, then put each pair read as it is read. */
    method FromData(input: seq<Token>) returns (r: Result<seq<Token>>)
      modifies this
      ensures r.Ok? <==> ReadCounted(input).Ok?
      ensures r.Ok? ==> r.value == ReadCounted(input).value.1
      ensures r.Ok? ==> State() == DataImage(ReadCounted(input).value.0)
    {
      attributes, deltas := map[], {};
      var header := ReadInt(input);
      if header.Err? {
        return Err(header.failure);
      }
      var count, rest := header.value.0, header.value.1;
      ghost var read: seq<(string, Option<Value>)> := [];
      PrependNothing(ReadPairs(rest, count));
      while count > 0
        invariant ReadCounted(input) == Prepend(read, ReadPairs(rest, count))
        invariant State() == DataImage(read)
        decreases count
      {
        var name := ReadUTF(rest);
        if name.Err? {
          return Err(name.failure);
        }
        var value := ReadValue(name.value.1);
        if value.Err? {
          return Err(value.failure);
        }
        var pair := (name.value.0, value.value.0);
        CollectSnoc(read, pair);
        OverlayUpdate(map[], Collect(read), pair.0, pair.1);
        attributes := SetMap(attributes, pair.0, pair.1);
        assert ReadPairs(rest, count) == Prepend([pair], ReadPairs(value.value.1, count - 1));
        PrependAssoc(read, [pair], ReadPairs(value.value.1, count - 1));
        read := read + [pair];
        rest := value.value.1;
        count := count - 1;
      }
      assert read + [] == read;
      return Ok(rest);
    }

    /** toDelta: the delta count, then each delta's (name, current value or null); the
        deltas are then flushed. */
    method ToDelta() returns (out: seq<Token>, order: seq<string>)
      modifies this
      ensures Enumerates(order, old(deltas))
      ensures out == DeltaData(old(State()), order)
      ensures State() == Store(old(attributes), {})
    {
      var pairs;
      pairs, order := WritePairs(deltas);
      out := [Int(|deltas|)] + pairs;
      deltas := {};
    }

    /** fromDelta: read all pairs first, then set each received attribute and stop
        treating its name as a delta. A malformed stream changes nothing. */
    method FromDelta(input: seq<Token>) returns (r: Result<seq<Token>>)
      modifies this
      ensures r.Ok? <==> ReadCounted(input).Ok?
      ensures r.Ok? ==> r.value == ReadCounted(input).value.1
      ensures r.Ok? ==> State() == DeltaImage(old(State()), ReadCounted(input).value.0)
      ensures r.Err? ==> State() == old(State())
    {
      var delta := ReadDelta(input);
      if delta.Err? {
        return Err(delta.failure);
      }
      Receive(delta.value.0);
      return Ok(delta.value.1);
    }

    /** Set each received attribute, then stop treating its name as a delta. */
    method Receive(received: map<string, Option<Value>>)
      modifies this
      ensures State() == ApplyReceived(old(State()), received)
    {
      ghost var start := State();
      var pending := received.Keys;
      assert Restrict(received, {}) == map[];
      assert ApplyReceived(start, map[]) == start;
      while pending != {}
        invariant pending <= received.Keys
        invariant State() == ApplyReceived(start, Restrict(received, received.Keys - pending))
        decreases pending
      {
        var name :| name in pending;
        ApplyReceivedStep(start, received, received.Keys - pending, name);
        assert received.Keys - (pending - {name}) == (received.Keys - pending) + {name};
        var _ := SetAttribute(name, received[name]);
        deltas := deltas - {name};
        pending := pending - {name};
      }
      assert Restrict(received, received.Keys) == received;
    }
  }
}

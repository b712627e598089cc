/**
  What the operations of Binder<T> guarantee, stated over the functions of
  BinderSpec: the invariant (at most one record per pair, every tracked
  callback and subscription still installed) is kept by every operation;
  UnBind removes exactly the first record of its pair; Bind appends on an
  unbound pair and drops the pair on a bound one, leaving the new callback
  and subscription installed but untracked; UnBindAll removes exactly the
  records of its property; Dispose empties the list but tears down only the
  records at even positions.
 */
module BinderProperties {
  import opened Bindings
  import opened BinderSpec

  /** The callbacks of a list of records, as (field, callback) registrations. */
  function Callbacks(models: seq<BindModel>): set<(FieldId, Handle)>
  {
    if models == [] then {} else {(models[0].field, models[0].callback)} + Callbacks(models[1..])
  }

  /** The subscriptions of a list of records. */
  function Disposables(models: seq<BindModel>): set<Handle>
  {
    if models == [] then {} else {models[0].disposable} + Disposables(models[1..])
  }

  /** The callbacks of the records at even positions below m. */
  function EvenCallbacks(models: seq<BindModel>, m: nat): set<(FieldId, Handle)>
    requires m <= |models|
  {
    set k | 0 <= k < m && k % 2 == 0 :: (models[k].field, models[k].callback)
  }

  /** The subscriptions of the records at even positions below m. */
  function EvenDisposables(models: seq<BindModel>, m: nat): set<Handle>
    requires m <= |models|
  {
    set k | 0 <= k < m && k % 2 == 0 :: models[k].disposable
  }

  // ---------------------------------------------------------------- UnBind

  /**
    UnBind on a pair whose first record is at position i: that record alone
    leaves the list, the others keep their order, its callback is
    unregistered from the field and its subscription disposed.
   */
  lemma UnBindFirstMatch(s: State, p: PropId, f: FieldId, i: nat)
    requires i < |s.bindModels| && Matches(s.bindModels[i], p, f)
    requires forall j | 0 <= j < i :: !Matches(s.bindModels[j], p, f)
    ensures UnBind(s, p, f) == s.(
      bindModels := s.bindModels[..i] + s.bindModels[i + 1..],
      registered := s.registered - {(f, s.bindModels[i].callback)},
      live := s.live - {s.bindModels[i].disposable})
  {
    FindFirst(s.bindModels, p, f, i);
    RemoveFirstAt(s.bindModels, i);
  }

  /** Removing the record at position i together with its callback and subscription keeps the invariant. */
  lemma InvariantRemoveAt(s: State, i: nat)
    requires Invariant(s) && i < |s.bindModels|
    ensures Invariant(s.(
      bindModels := s.bindModels[..i] + s.bindModels[i + 1..],
      registered := s.registered - {(s.bindModels[i].field, s.bindModels[i].callback)},
      live := s.live - {s.bindModels[i].disposable}))
  {
    var ms := s.bindModels;
    RemoveAtKeepsOthers(ms, i);
  }

  /**
    Under the invariant, UnBind on a bound pair (its record at position i)
    leaves no record for the pair, keeps every other record in order and
    installed, and tears down exactly that record's callback and
    subscription.
   */
  lemma UnBindBound(s: State, p: PropId, f: FieldId, i: nat)
    requires Invariant(s)
    requires i < |s.bindModels| && Matches(s.bindModels[i], p, f)
    ensures var t := UnBind(s, p, f);
      && t.bindModels == s.bindModels[..i] + s.bindModels[i + 1..]
      && (forall m | m in t.bindModels :: !Matches(m, p, f))
      && t.registered == s.registered - {(f, s.bindModels[i].callback)}
      && t.live == s.live - {s.bindModels[i].disposable}
      && (forall m | m in t.bindModels :: (m.field, m.callback) in t.registered && m.disposable in t.live)
  {
    var ms := s.bindModels;
    UnBindFirstMatch(s, p, f, i);
    InvariantRemoveAt(s, i);
    var r := ms[..i] + ms[i + 1..];
    RemoveAtKeepsOthers(ms, i);
    forall m | m in r
      ensures !Matches(m, p, f)
    {
      var j :| 0 <= j < |r| && r[j] == m;
      if j < i {
        assert m == ms[j];
      } else {
        assert m == ms[j + 1];
      }
    }
  }

  /** UnBind keeps the invariant. */
  lemma InvariantUnBind(s: State, p: PropId, f: FieldId)
    requires Invariant(s)
    ensures Invariant(UnBind(s, p, f))
  {
    var found := Find(s.bindModels, p, f);
    if found.Some? {
      var i :| 0 <= i < |s.bindModels| && s.bindModels[i] == found.value;
      UnBindFirstMatch(s, p, f, i);
      InvariantRemoveAt(s, i);
    }
  }

  // ------------------------------------------------------------------ Bind

  /** Creating and installing a new callback and subscription keeps the invariant, and both are new. */
  lemma InvariantSubscribe(s: State, f: FieldId)
    requires Invariant(s)
    ensures Invariant(Subscribe(s, f))
    ensures (f, s.nextHandle) !in s.registered && s.nextHandle + 1 !in s.live
  {
  }

  /**
    Bind on a pair with no record appends exactly one record, holding the
    new callback and subscription, after the untouched earlier records; the
    callback is newly registered on the field and the subscription newly
    live. Nothing else in the world changes.
   */
  lemma BindUnbound(s: State, p: PropId, f: FieldId)
    requires Invariant(s)
    requires forall i | 0 <= i < |s.bindModels| :: !Matches(s.bindModels[i], p, f)
    ensures var t := Bind(s, p, f);
      && t.bindModels == s.bindModels + [BindModel(p, f, s.nextHandle, s.nextHandle + 1)]
      && t.registered == s.registered + {(f, s.nextHandle)} && (f, s.nextHandle) !in s.registered
      && t.live == s.live + {s.nextHandle + 1} && s.nextHandle + 1 !in s.live
      && (forall m | m in t.bindModels && Matches(m, p, f) :: m == BindModel(p, f, s.nextHandle, s.nextHandle + 1))
  {
    InvariantSubscribe(s, f);
  }

  /**
    Bind on a pair that already has a record (at position i): the old record
    is removed and no record for the pair remains; the old callback is
    unregistered and the old subscription disposed; the callback and
    subscription Bind has just created stay registered and live, and no
    record tracks them.
   */
  lemma BindBound(s: State, p: PropId, f: FieldId, i: nat)
    requires Invariant(s)
    requires i < |s.bindModels| && Matches(s.bindModels[i], p, f)
    ensures var t := Bind(s, p, f);
      && t.bindModels == s.bindModels[..i] + s.bindModels[i + 1..]
      && (forall m | m in t.bindModels :: !Matches(m, p, f))
      && t.registered == s.registered - {(f, s.bindModels[i].callback)} + {(f, s.nextHandle)}
      && t.live == s.live - {s.bindModels[i].disposable} + {s.nextHandle + 1}
      && (f, s.bindModels[i].callback) !in t.registered
      && s.bindModels[i].disposable !in t.live
      && (f, s.nextHandle) in t.registered && s.nextHandle + 1 in t.live
      && (forall m | m in t.bindModels :: m.callback != s.nextHandle && m.disposable != s.nextHandle + 1)
  {
    var s1 := Subscribe(s, f);
    InvariantSubscribe(s, f);
    assert s1.bindModels == s.bindModels;
    assert Find(s1.bindModels, p, f).Some?;
    assert Bind(s, p, f) == UnBind(s1, p, f);
    UnBindBound(s1, p, f, i);
    RemoveAtKeepsOthers(s.bindModels, i);
    assert s.bindModels[i].callback < s.nextHandle && s.bindModels[i].disposable < s.nextHandle;
  }

  /** After Bind, the only record the pair can have is the one holding the new callback and subscription. */
  lemma BindOnlyNewRecord(s: State, p: PropId, f: FieldId)
    requires Invariant(s)
    ensures forall m | m in Bind(s, p, f).bindModels && Matches(m, p, f) ::
      m == BindModel(p, f, s.nextHandle, s.nextHandle + 1)
  {
    if forall i | 0 <= i < |s.bindModels| :: !Matches(s.bindModels[i], p, f) {
      BindUnbound(s, p, f);
    } else {
      var i :| 0 <= i < |s.bindModels| && Matches(s.bindModels[i], p, f);
      BindBound(s, p, f, i);
    }
  }

  /** Bind keeps the invariant: in particular no pair ever gets a second record. */
  lemma InvariantBind(s: State, p: PropId, f: FieldId)
    requires Invariant(s)
    ensures Invariant(Bind(s, p, f))
  {
    InvariantSubscribe(s, f);
    var s1 := Subscribe(s, f);
    if Find(s1.bindModels, p, f).Some? {
      InvariantUnBind(s1, p, f);
    }
  }

  // ------------------------------------------------------------- UnBindAll

  /** UnBind for a pair that x does not match leaves x, placed in front, where it is. */
  lemma UnBindFrame(s: State, x: BindModel, p: PropId, f: FieldId)
    requires !Matches(x, p, f)
    ensures UnBind(s.(bindModels := [x] + s.bindModels), p, f)
         == UnBind(s, p, f).(bindModels := [x] + UnBind(s, p, f).bindModels)
  {
    var ms := [x] + s.bindModels;
    assert ms[1..] == s.bindModels;
    assert Find(ms, p, f) == Find(s.bindModels, p, f);
  }

  /** The UnBindAll loop over a snapshot of property p never touches a record of another property in front. */
  lemma {:induction false} UnBindEachFrame(s: State, x: BindModel, p: PropId, snapshot: seq<BindModel>)
    requires x.reactiveProperty != p
    ensures UnBindEach(s.(bindModels := [x] + s.bindModels), p, snapshot)
         == UnBindEach(s, p, snapshot).(bindModels := [x] + UnBindEach(s, p, snapshot).bindModels)
    decreases |snapshot|
  {
    if snapshot != [] {
      UnBindFrame(s, x, p, snapshot[0].field);
      UnBindEachFrame(UnBind(s, p, snapshot[0].field), x, p, snapshot[1..]);
    }
  }

  /**
    UnBindAll(p) leaves exactly the records of other properties, in their
    original order, and tears down the callback and subscription of every
    record of p that was in the snapshot.
   */
  lemma {:induction false} UnBindAllEffect(s: State, p: PropId)
    ensures var t := UnBindAll(s, p);
      && t.bindModels == Others(s.bindModels, p)
      && t.registered == s.registered - Callbacks(FindAll(s.bindModels, p))
      && t.live == s.live - Disposables(FindAll(s.bindModels, p))
      && t.drawerCallbacks == s.drawerCallbacks && t.log == s.log && t.nextHandle == s.nextHandle
    decreases |s.bindModels|
  {
    var ms := s.bindModels;
    if ms != [] {
      var x, tail := ms[0], ms[1..];
      assert ms == [x] + tail;
      var rest := s.(bindModels := tail);
      if x.reactiveProperty == p {
        var snapshot := FindAll(ms, p);
        assert snapshot == [x] + FindAll(tail, p);
        assert snapshot[1..] == FindAll(tail, p);
        FindFirst(ms, p, x.field, 0);
        var s2 := UnBind(s, p, x.field);
        assert s2 == rest.(registered := s.registered - {(x.field, x.callback)},
                           live := s.live - {x.disposable});
        UnBindAllEffect(s2, p);
      } else {
        assert FindAll(ms, p) == FindAll(tail, p);
        UnBindEachFrame(rest, x, p, FindAll(tail, p));
        assert s == rest.(bindModels := [x] + rest.bindModels);
        UnBindAllEffect(rest, p);
      }
    }
  }

  /**
    After UnBindAll(p) no record references p, and every record of another
    property is still present, in its original relative order; with N
    records of p among M, exactly M - N remain.
   */
  lemma UnBindAllRemovesProperty(s: State, p: PropId)
    ensures var t := UnBindAll(s, p);
      && (forall m | m in t.bindModels :: m.reactiveProperty != p)
      && (forall m | m in s.bindModels && m.reactiveProperty != p :: m in t.bindModels)
      && |t.bindModels| == |s.bindModels| - |FindAll(s.bindModels, p)|
  {
    UnBindAllEffect(s, p);
    FindAllPartition(s.bindModels, p);
  }

  /** Each step of the UnBindAll loop keeps the invariant. */
  lemma {:induction false} InvariantUnBindEach(s: State, p: PropId, snapshot: seq<BindModel>)
    requires Invariant(s)
    ensures Invariant(UnBindEach(s, p, snapshot))
    decreases |snapshot|
  {
    if snapshot != [] {
      InvariantUnBind(s, p, snapshot[0].field);
      InvariantUnBindEach(UnBind(s, p, snapshot[0].field), p, snapshot[1..]);
    }
  }

  /** UnBindAll keeps the invariant. */
  lemma InvariantUnBindAll(s: State, p: PropId)
    requires Invariant(s)
    ensures Invariant(UnBindAll(s, p))
  {
    InvariantUnBindEach(s, p, FindAll(s.bindModels, p));
  }

  // --------------------------------------------------------------- Dispose

  /** Extending the even-position sets by one position. */
  lemma EvenStep(ms: seq<BindModel>, n: nat)
    requires n < |ms|
    ensures EvenCallbacks(ms, n + 1) ==
      if n % 2 == 0 then EvenCallbacks(ms, n) + {(ms[n].field, ms[n].callback)} else EvenCallbacks(ms, n)
    ensures EvenDisposables(ms, n + 1) ==
      if n % 2 == 0 then EvenDisposables(ms, n) + {ms[n].disposable} else EvenDisposables(ms, n)
  {
  }

  /**
    An odd position adds nothing to the torn-down sets. The bound after the
    step is the separate parameter m == n + 1, so that a caller can pass it in
    the form its own goal uses (2 * (i + 1)) and the solver only substitutes.
   */
  lemma OddStep(ms: seq<BindModel>, n: nat, m: nat)
    requires n < |ms| && n % 2 == 1 && m == n + 1
    ensures EvenCallbacks(ms, m) == EvenCallbacks(ms, n)
    ensures EvenDisposables(ms, m) == EvenDisposables(ms, n)
  {
    EvenStep(ms, n);
  }

  /**
    The shape of the list after i rounds of the Dispose loop over ms: the
    records at the odd positions 1, 3, ..., 2i - 1 of ms, then ms[2i..].
   */
  ghost predicate RoundShape(cur: seq<BindModel>, ms: seq<BindModel>, i: nat)
  {
    && 2 * i <= |ms| && |cur| == |ms| - i
    && (forall j | 0 <= j < i :: cur[j] == ms[2 * j + 1])
    && (forall j | i <= j < |cur| :: cur[j] == ms[j + i])
  }

  /** Removing the record at index i after i rounds gives the shape after i + 1 rounds. */
  lemma RoundShapeStep(cur: seq<BindModel>, ms: seq<BindModel>, i: nat)
    requires RoundShape(cur, ms, i) && 2 * i + 1 < |ms|
    ensures RoundShape(cur[..i] + cur[i + 1..], ms, i + 1)
  {
    var next := cur[..i] + cur[i + 1..];
    assert forall j | 0 <= j < |next| :: next[j] == cur[if j < i then j else j + 1];
  }

  /** In round i the record at index i, ms[2i], is the first record of its pair. */
  lemma RoundFirstMatch(cur: seq<BindModel>, ms: seq<BindModel>, i: nat)
    requires UniquePairs(ms) && RoundShape(cur, ms, i) && 2 * i < |ms|
    ensures cur[i] == ms[2 * i]
    ensures forall j | 0 <= j < i :: !Matches(cur[j], ms[2 * i].reactiveProperty, ms[2 * i].field)
  {
    forall j | 0 <= j < i
      ensures !Matches(cur[j], ms[2 * i].reactiveProperty, ms[2 * i].field)
    {
      assert cur[j] == ms[2 * j + 1];
    }
  }

  /**
    The state of the Dispose loop after i rounds over ms: the list has the
    shape RoundShape and the records at even positions below 2i have been
    torn down, relative to the registrations reg0 and subscriptions live0
    before the loop.
   */
  ghost predicate AfterRounds(
    s: State, ms: seq<BindModel>, i: nat, reg0: set<(FieldId, Handle)>, live0: set<Handle>)
  {
    && RoundShape(s.bindModels, ms, i)
    && s.registered == reg0 - EvenCallbacks(ms, 2 * i)
    && s.live == live0 - EvenDisposables(ms, 2 * i)
  }

  /** Round i of the Dispose loop unbinds ms[2i] and nothing else. */
  lemma DisposeRound(
    s: State, ms: seq<BindModel>, i: nat, reg0: set<(FieldId, Handle)>, live0: set<Handle>)
    requires UniquePairs(ms) && AfterRounds(s, ms, i, reg0, live0) && 2 * i < |ms|
    ensures var s2 := UnBind(s, ms[2 * i].reactiveProperty, ms[2 * i].field);
      && s.bindModels[i] == ms[2 * i]
      && s2.bindModels == s.bindModels[..i] + s.bindModels[i + 1..]
      && s2.registered == reg0 - EvenCallbacks(ms, 2 * i + 1)
      && s2.live == live0 - EvenDisposables(ms, 2 * i + 1)
  {
    var m := ms[2 * i];
    RoundFirstMatch(s.bindModels, ms, i);
    UnBindFirstMatch(s, m.reactiveProperty, m.field, i);
    EvenStep(ms, 2 * i);
  }

  /** A round that is not the last one leads to the state after i + 1 rounds. */
  lemma DisposeNextRound(
    s: State, ms: seq<BindModel>, i: nat, reg0: set<(FieldId, Handle)>, live0: set<Handle>)
    requires UniquePairs(ms) && AfterRounds(s, ms, i, reg0, live0) && 2 * i + 1 < |ms|
    ensures AfterRounds(UnBind(s, ms[2 * i].reactiveProperty, ms[2 * i].field), ms, i + 1, reg0, live0)
  {
    var s2 := UnBind(s, ms[2 * i].reactiveProperty, ms[2 * i].field);
    DisposeRound(s, ms, i, reg0, live0);
    RoundShapeStep(s.bindModels, ms, i);
    assert RoundShape(s2.bindModels, ms, i + 1);
    OddStep(ms, 2 * i + 1, 2 * (i + 1));
  }

  /** The state the Dispose loop ends in: the odd-position records of ms remain, the even ones are torn down. */
  ghost predicate RoundsDone(
    t: State, ms: seq<BindModel>, reg0: set<(FieldId, Handle)>, live0: set<Handle>)
  {
    && |t.bindModels| == |ms| / 2
    && (forall j | 0 <= j < |ms| / 2 :: t.bindModels[j] == ms[2 * j + 1])
    && t.registered == reg0 - EvenCallbacks(ms, |ms|)
    && t.live == live0 - EvenDisposables(ms, |ms|)
  }

  /** The last round of the loop, when ms has odd length, leaves the loop done. */
  lemma DisposeLastRound(
    s: State, ms: seq<BindModel>, i: nat, reg0: set<(FieldId, Handle)>, live0: set<Handle>)
    requires UniquePairs(ms) && AfterRounds(s, ms, i, reg0, live0) && 2 * i + 1 == |ms|
    ensures var s2 := UnBind(s, ms[2 * i].reactiveProperty, ms[2 * i].field);
      DisposeFrom(s2, i + 1) == s2 && RoundsDone(s2, ms, reg0, live0)
  {
    DisposeRound(s, ms, i, reg0, live0);
  }

  /** With an even length, the loop is done after |ms| / 2 rounds. */
  lemma DisposeNoRound(
    s: State, ms: seq<BindModel>, i: nat, reg0: set<(FieldId, Handle)>, live0: set<Handle>)
    requires AfterRounds(s, ms, i, reg0, live0) && 2 * i == |ms|
    ensures DisposeFrom(s, i) == s && RoundsDone(s, ms, reg0, live0)
  {
  }

  /**
    Running the Dispose loop to its end from round i, on a list ms whose
    pairs are unique, keeps the odd-position records and tears down every
    even-position one.
   */
  lemma {:induction false} DisposeFromRounds(
    s: State, ms: seq<BindModel>, i: nat, reg0: set<(FieldId, Handle)>, live0: set<Handle>)
    requires UniquePairs(ms) && AfterRounds(s, ms, i, reg0, live0)
    ensures RoundsDone(DisposeFrom(s, i), ms, reg0, live0)
    decreases |ms| - 2 * i
  {
    if 2 * i < |ms| {
      DisposeRound(s, ms, i, reg0, live0);
      if 2 * i + 1 == |ms| {
        DisposeLastRound(s, ms, i, reg0, live0);
      } else {
        DisposeNextRound(s, ms, i, reg0, live0);
        DisposeFromRounds(UnBind(s, ms[2 * i].reactiveProperty, ms[2 * i].field), ms, i + 1, reg0, live0);
      }
    } else {
      DisposeNoRound(s, ms, i, reg0, live0);
    }
  }

  /**
    Dispose always ends with an empty list, but only the records at original
    positions 0, 2, 4, ... have their callbacks unregistered and their
    subscriptions disposed: UnBind shrinks the list the loop walks by index.
    The records at odd positions are cleared with their callbacks still
    registered and their subscriptions still live.
   */
  lemma DisposeTearsDownEvenPositions(s: State)
    requires Invariant(s)
    ensures var t := Dispose(s);
      && t.bindModels == []
      && t.registered == s.registered - EvenCallbacks(s.bindModels, |s.bindModels|)
      && t.live == s.live - EvenDisposables(s.bindModels, |s.bindModels|)
      && (forall k | 0 <= k < |s.bindModels| ::
            ((s.bindModels[k].field, s.bindModels[k].callback) in t.registered <==> k % 2 == 1) &&
            (s.bindModels[k].disposable in t.live <==> k % 2 == 1))
  {
    var ms := s.bindModels;
    assert EvenCallbacks(ms, 0) == {};
    assert EvenDisposables(ms, 0) == {};
    assert AfterRounds(s, ms, 0, s.registered, s.live);
    DisposeFromRounds(s, ms, 0, s.registered, s.live);
  }

  /** Each round of the Dispose loop keeps the invariant. */
  lemma {:induction false} InvariantDisposeFrom(s: State, i: nat)
    requires Invariant(s)
    ensures Invariant(DisposeFrom(s, i))
    decreases |s.bindModels| - i
  {
    if i < |s.bindModels| {
      var m := s.bindModels[i];
      InvariantUnBind(s, m.reactiveProperty, m.field);
      InvariantDisposeFrom(UnBind(s, m.reactiveProperty, m.field), i + 1);
    }
  }

  /** Dispose keeps the invariant, and a second Dispose changes nothing. */
  lemma InvariantDispose(s: State)
    requires Invariant(s)
    ensures Invariant(Dispose(s))
    ensures Dispose(Dispose(s)) == Dispose(s)
  {
    InvariantDisposeFrom(s, 0);
  }

  // ------------------------------------------------------------ BindByName

  /** Creating the PropertyField and its callback keeps the invariant; both are new objects. */
  lemma InvariantAllocateDrawer(s: State)
    requires Invariant(s)
    ensures Invariant(AllocateDrawer(s))
    ensures forall e | e in s.drawerCallbacks :: e.0 != s.nextHandle && e.1 != s.nextHandle + 1
  {
  }

  /**
    By-name Bind with a name the container has: the returned PropertyField
    is a new object, carries one new callback, and the property found under
    the name becomes bound to the field as by Bind. The invariant is kept.
   */
  lemma BindByNameFound(s: State, fields: map<string, PropId>, name: string, target: string, f: FieldId)
    requires Invariant(s) && name in fields
    ensures var (t, element) := BindByName(s, fields, name, target, f);
      && element == Some(s.nextHandle)
      && (forall e | e in s.drawerCallbacks :: e.0 != s.nextHandle)
      && t.drawerCallbacks == s.drawerCallbacks + {(s.nextHandle, s.nextHandle + 1)}
      && Invariant(t)
      && (forall m | m in t.bindModels && Matches(m, fields[name], f) ::
            m == BindModel(fields[name], f, s.nextHandle + 2, s.nextHandle + 3))
  {
    var s1 := AllocateDrawer(s);
    InvariantAllocateDrawer(s);
    InvariantBind(s1, fields[name], f);
    BindOnlyNewRecord(s1, fields[name], f);
  }

  // ------------------------------------------------- Untracked after Bind

  /**
    A callback registration e and a subscription h that are installed but
    that no record of the list holds: no operation of the binder can reach
    them any more.
   */
  ghost predicate Untracked(s: State, e: (FieldId, Handle), h: Handle)
  {
    && e in s.registered && h in s.live
    && (forall m | m in s.bindModels :: (m.field, m.callback) != e && m.disposable != h)
  }

  /** Bind on a bound pair leaves the callback and subscription it has just created untracked. */
  lemma BindBoundLeavesUntracked(s: State, p: PropId, f: FieldId, i: nat)
    requires Invariant(s)
    requires i < |s.bindModels| && Matches(s.bindModels[i], p, f)
    ensures Untracked(Bind(s, p, f), (f, s.nextHandle), s.nextHandle + 1)
  {
    BindBound(s, p, f, i);
  }

  /** UnBind keeps an untracked callback registered and an untracked subscription live. */
  lemma UnBindKeepsUntracked(s: State, p: PropId, f: FieldId, e: (FieldId, Handle), h: Handle)
    requires Untracked(s, e, h)
    ensures Untracked(UnBind(s, p, f), e, h)
  {
    var found := Find(s.bindModels, p, f);
    if found.Some? {
      assert found.value in s.bindModels && found.value.field == f;
    }
  }

  /** A later Bind keeps an untracked callback registered and an untracked subscription live. */
  lemma BindKeepsUntracked(s: State, p: PropId, f: FieldId, e: (FieldId, Handle), h: Handle)
    requires Invariant(s) && Untracked(s, e, h)
    ensures Untracked(Bind(s, p, f), e, h)
  {
    InvariantSubscribe(s, f);
    var s1 := Subscribe(s, f);
    assert Untracked(s1, e, h);
    if Find(s1.bindModels, p, f).Some? {
      UnBindKeepsUntracked(s1, p, f, e, h);
    }
  }

  /** Every round of the UnBindAll loop keeps an untracked callback and subscription installed. */
  lemma {:induction false} UnBindEachKeepsUntracked(
    s: State, p: PropId, snapshot: seq<BindModel>, e: (FieldId, Handle), h: Handle)
    requires Untracked(s, e, h)
    ensures Untracked(UnBindEach(s, p, snapshot), e, h)
    decreases |snapshot|
  {
    if snapshot != [] {
      UnBindKeepsUntracked(s, p, snapshot[0].field, e, h);
      UnBindEachKeepsUntracked(UnBind(s, p, snapshot[0].field), p, snapshot[1..], e, h);
    }
  }

  /** UnBindAll keeps an untracked callback registered and an untracked subscription live. */
  lemma UnBindAllKeepsUntracked(s: State, p: PropId, e: (FieldId, Handle), h: Handle)
    requires Untracked(s, e, h)
    ensures Untracked(UnBindAll(s, p), e, h)
  {
    UnBindEachKeepsUntracked(s, p, FindAll(s.bindModels, p), e, h);
  }

  /** Every round of the Dispose loop keeps an untracked callback and subscription installed. */
  lemma {:induction false} DisposeFromKeepsUntracked(s: State, i: nat, e: (FieldId, Handle), h: Handle)
    requires Untracked(s, e, h)
    ensures Untracked(DisposeFrom(s, i), e, h)
    decreases |s.bindModels| - i
  {
    if i < |s.bindModels| {
      var m := s.bindModels[i];
      UnBindKeepsUntracked(s, m.reactiveProperty, m.field, e, h);
      DisposeFromKeepsUntracked(UnBind(s, m.reactiveProperty, m.field), i + 1, e, h);
    }
  }

  /** Dispose leaves an untracked callback registered and an untracked subscription live. */
  lemma DisposeKeepsUntracked(s: State, e: (FieldId, Handle), h: Handle)
    requires Untracked(s, e, h)
    ensures Untracked(Dispose(s), e, h)
  {
    DisposeFromKeepsUntracked(s, 0, e, h);
  }

  /** The by-name Bind, with or without the named field, keeps an untracked callback and subscription installed. */
  lemma BindByNameKeepsUntracked(
    s: State, fields: map<string, PropId>, name: string, target: string, f: FieldId,
    e: (FieldId, Handle), h: Handle)
    requires Invariant(s) && Untracked(s, e, h)
    ensures Untracked(BindByName(s, fields, name, target, f).0, e, h)
  {
    if name in fields {
      InvariantAllocateDrawer(s);
      BindKeepsUntracked(AllocateDrawer(s), fields[name], f, e, h);
    }
  }
}

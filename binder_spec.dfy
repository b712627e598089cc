/**
  What each operation of Binder<T> does to the binder's state, as functions
  from the state before the call to the state after it. The class in
  binder.dfy is proved to change its fields exactly as these say; the
  lemmas in binder_properties.dfy state what the functions mean.

  Besides the list of records the state includes this binder's own effects
  on the outside world: the callbacks it has registered on fields and not
  unregistered, the subscriptions it has made and not disposed, the callbacks
  it has installed on the PropertyField elements of the by-name Bind, the
  messages it has logged, and the next identity to allocate (every
  allocation yields an object not seen before). What other code registers is
  not part of the state.
 */
module BinderSpec {
  import opened Bindings

  datatype State = State(
    bindModels: seq<BindModel>,                // the binder's List<BindModel<T>>
    registered: set<(FieldId, Handle)>,        // callbacks this binder registered on fields
    live: set<Handle>,                         // subscriptions this binder made, not yet disposed
    drawerCallbacks: set<(Handle, Handle)>,    // callbacks it registered on PropertyField elements
    log: seq<string>,                          // its Debug.LogError messages
    nextHandle: Handle)                        // every identity below this one is taken

  /** The empty binder, in a world with nothing allocated yet. */
  function Initial(): (s: State)
    ensures s.bindModels == [] && s.registered == {} && s.live == {}
  {
    State([], {}, {}, {}, [], 0)
  }

  /** At most one record per (property, field) pair. */
  ghost predicate UniquePairs(models: seq<BindModel>)
  {
    forall i, j | 0 <= i < j < |models| ::
      !Matches(models[j], models[i].reactiveProperty, models[i].field)
  }

  /**
    The binder's invariant: at most one record per pair; each record's
    callback and subscription are its own, were allocated earlier, and are
    still registered and live; nothing in the world uses an identity not yet
    allocated.
   */
  ghost predicate Invariant(s: State)
  {
    && UniquePairs(s.bindModels)
    && (forall i, j | 0 <= i < j < |s.bindModels| ::
          s.bindModels[i].callback != s.bindModels[j].callback &&
          s.bindModels[i].disposable != s.bindModels[j].disposable)
    && (forall i | 0 <= i < |s.bindModels| ::
          s.bindModels[i].callback < s.nextHandle &&
          s.bindModels[i].disposable < s.nextHandle &&
          (s.bindModels[i].field, s.bindModels[i].callback) in s.registered &&
          s.bindModels[i].disposable in s.live)
    && (forall e | e in s.registered :: e.1 < s.nextHandle)
    && (forall h | h in s.live :: h < s.nextHandle)
    && (forall e | e in s.drawerCallbacks :: e.0 < s.nextHandle && e.1 < s.nextHandle)
  }

  /**
    UnBind(p, f): find the first record for the pair; if there is one,
    unregister its callback from f and dispose its subscription; then
    Remove the found record (Remove(null) when there was none).
   */
  function UnBind(s: State, p: PropId, f: FieldId): (t: State)
    ensures |t.bindModels| <= |s.bindModels|
    ensures (forall i | 0 <= i < |s.bindModels| :: !Matches(s.bindModels[i], p, f)) ==> t == s
    ensures t.drawerCallbacks == s.drawerCallbacks && t.log == s.log && t.nextHandle == s.nextHandle
  {
    var found := Find(s.bindModels, p, f);
    var registered := if found.Some? then s.registered - {(f, found.value.callback)} else s.registered;
    var live := if found.Some? then s.live - {found.value.disposable} else s.live;
    s.(bindModels := Remove(s.bindModels, found), registered := registered, live := live)
  }

  /**
    The first half of Bind(p, f): create a callback and register it on f,
    then subscribe to p. The callback is identity nextHandle, the
    subscription nextHandle + 1.
   */
  function Subscribe(s: State, f: FieldId): (t: State)
    ensures t.bindModels == s.bindModels && t.nextHandle == s.nextHandle + 2
    ensures (f, s.nextHandle) in t.registered && s.nextHandle + 1 in t.live
  {
    s.(registered := s.registered + {(f, s.nextHandle)},
       live := s.live + {s.nextHandle + 1},
       nextHandle := s.nextHandle + 2)
  }

  /**
    Bind(p, f): subscribe, then look the pair up. If it has no record, the
    new one is appended; if it has one, UnBind(p, f) removes it and no new
    record is added.
   */
  function Bind(s: State, p: PropId, f: FieldId): (t: State)
    ensures t.drawerCallbacks == s.drawerCallbacks && t.log == s.log && t.nextHandle == s.nextHandle + 2
  {
    var s1 := Subscribe(s, f);
    if Find(s1.bindModels, p, f).None? then
      s1.(bindModels := s1.bindModels + [BindModel(p, f, s.nextHandle, s.nextHandle + 1)])
    else
      UnBind(s1, p, f)
  }

  /** The loop of UnBindAll: UnBind(p, m.field) for each record m of the snapshot, in order. */
  function UnBindEach(s: State, p: PropId, snapshot: seq<BindModel>): (t: State)
    ensures |t.bindModels| <= |s.bindModels|
    ensures t.drawerCallbacks == s.drawerCallbacks && t.log == s.log && t.nextHandle == s.nextHandle
    decreases |snapshot|
  {
    if snapshot == [] then s
    else UnBindEach(UnBind(s, p, snapshot[0].field), p, snapshot[1..])
  }

  /** UnBindAll(p): snapshot the records of p with FindAll, then unbind each. */
  function UnBindAll(s: State, p: PropId): State
  {
    UnBindEach(s, p, FindAll(s.bindModels, p))
  }

  /**
    The loop of Dispose from index i on: while i is below the current length
    of the list, unbind the pair of the record now at index i, then move to
    i + 1 on the list as UnBind left it.
   */
  function DisposeFrom(s: State, i: nat): (t: State)
    ensures t.drawerCallbacks == s.drawerCallbacks && t.log == s.log && t.nextHandle == s.nextHandle
    decreases |s.bindModels| - i
  {
    if i < |s.bindModels| then
      DisposeFrom(UnBind(s, s.bindModels[i].reactiveProperty, s.bindModels[i].field), i + 1)
    else s
  }

  /** Dispose(): the loop from index 0, then Clear(). */
  function Dispose(s: State): (t: State)
    ensures t.bindModels == []
    ensures s.bindModels == [] ==> t == s
  {
    DisposeFrom(s, 0).(bindModels := [])
  }

  /** The message Debug.LogError writes when the container has no field of that name. */
  function NotFoundMessage(name: string, target: string): string
  {
    "Field " + name + " not found in " + target
  }

  /**
    The part of the by-name Bind that creates a PropertyField (identity
    nextHandle) and registers a callback (identity nextHandle + 1) on it.
   */
  function AllocateDrawer(s: State): (t: State)
    ensures t.bindModels == s.bindModels && t.registered == s.registered && t.live == s.live
    ensures (s.nextHandle, s.nextHandle + 1) in t.drawerCallbacks && t.nextHandle == s.nextHandle + 2
  {
    s.(drawerCallbacks := s.drawerCallbacks + {(s.nextHandle, s.nextHandle + 1)},
       nextHandle := s.nextHandle + 2)
  }

  /**
    Bind(serializedObject, name, field), with the reflective field lookup
    abstracted as the map `fields` from field names of the container to the
    properties they hold, and `target` the container's printed name. A
    missing name logs one message and returns null (None). Otherwise a
    PropertyField is created, a callback is registered on it, and Bind binds
    the property to the field; the PropertyField is returned.
   */
  function BindByName(s: State, fields: map<string, PropId>, name: string, target: string, f: FieldId)
    : (res: (State, Option<Handle>))
    ensures name !in fields ==>
      res.1 == None && res.0 == s.(log := s.log + [NotFoundMessage(name, target)])
    ensures name in fields ==>
      res.1 == Some(s.nextHandle) && res.0.log == s.log && res.0.nextHandle == s.nextHandle + 4
  {
    if name !in fields then
      (s.(log := s.log + [NotFoundMessage(name, target)]), None)
    else
      (Bind(AllocateDrawer(s), fields[name], f), Some(s.nextHandle))
  }
}

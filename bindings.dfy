/**
  The binding record of Binder<T> (BindModel<T>) and the List<T> operations
  the binder performs on its list of records: Find / FirstOrDefault with an
  identity predicate, FindAll, and Remove.

  ReactiveProperty<T> and BaseField<T> are opaque objects compared by
  reference, so they are modelled by identities. Callbacks and subscriptions
  are objects the binder allocates itself; they are identities too (Handle).
 */
module Bindings {

  /** Identity of a ReactiveProperty<T> instance. */
  type PropId = nat
  /** Identity of a BaseField<T> instance. */
  type FieldId = nat
  /** Identity of an object allocated by the binder: an event callback, a subscription, a PropertyField. */
  type Handle = nat

  datatype Option<T> = None | Some(value: T)

  /** BindModel<T>: one tracked binding between a property and a field. */
  datatype BindModel = BindModel(reactiveProperty: PropId, field: FieldId, callback: Handle, disposable: Handle)

  /** The lookup predicate of Bind and UnBind: same property and same field, by reference. */
  predicate Matches(m: BindModel, p: PropId, f: FieldId)
  {
    m.reactiveProperty == p && m.field == f
  }

  /** List<T>.Find / FirstOrDefault with the predicate `Matches`: the first matching record, or null (None). */
  function Find(models: seq<BindModel>, p: PropId, f: FieldId): (found: Option<BindModel>)
    ensures found.None? <==> forall i | 0 <= i < |models| :: !Matches(models[i], p, f)
    ensures found.Some? ==> found.value in models && Matches(found.value, p, f)
  {
    if models == [] then None
    else if Matches(models[0], p, f) then Some(models[0])
    else Find(models[1..], p, f)
  }

  /** Find returns the record at the first matching position. */
  lemma {:induction false} FindFirst(models: seq<BindModel>, p: PropId, f: FieldId, i: nat)
    requires i < |models| && Matches(models[i], p, f)
    requires forall j | 0 <= j < i :: !Matches(models[j], p, f)
    ensures Find(models, p, f) == Some(models[i])
  {
    if i > 0 {
      FindFirst(models[1..], p, f, i - 1);
    }
  }

  /** List<T>.Remove(item) for a non-null item: drops the first element equal to it. */
  function RemoveFirst(models: seq<BindModel>, x: BindModel): (r: seq<BindModel>)
    ensures x in models ==> |r| == |models| - 1
    ensures x !in models ==> r == models
    ensures forall m | m in r :: m in models
  {
    if models == [] then []
    else
      assert models == [models[0]] + models[1..];
      if models[0] == x then models[1..]
      else [models[0]] + RemoveFirst(models[1..], x)
  }

  /** Removing the element at its first occurrence keeps the others in order. */
  lemma {:induction false} RemoveFirstAt(models: seq<BindModel>, i: nat)
    requires i < |models|
    requires forall j | 0 <= j < i :: models[j] != models[i]
    ensures RemoveFirst(models, models[i]) == models[..i] + models[i + 1..]
  {
    if i > 0 {
      var tail := models[1..];
      assert tail[i - 1] == models[i];
      RemoveFirstAt(tail, i - 1);
      assert RemoveFirst(models, models[i]) == [models[0]] + RemoveFirst(tail, models[i]);
      assert tail[..i - 1] == models[1..i];
      assert tail[i..] == models[i + 1..];
      assert [models[0]] + models[1..i] == models[..i];
    }
  }

  /**
    Dropping position i: every record after it moves down by one, and only
    records that were already in the list remain.
   */
  lemma RemoveAtKeepsOthers(models: seq<BindModel>, i: nat)
    requires i < |models|
    ensures var r := models[..i] + models[i + 1..];
      && |r| == |models| - 1
      && (forall j | 0 <= j < i :: r[j] == models[j])
      && (forall j | i <= j < |r| :: r[j] == models[j + 1])
      && (forall m | m in r :: m in models)
  {
    var r := models[..i] + models[i + 1..];
    forall m | m in r
      ensures m in models
    {
      var j :| 0 <= j < |r| && r[j] == m;
      if j < i {
        assert m == models[j];
      } else {
        assert m == models[j + 1];
      }
    }
  }

  /**
    List<T>.Remove(item) where item may be null (None). The list never holds
    null, so Remove(null) finds nothing and leaves the list unchanged.
   */
  function Remove(models: seq<BindModel>, item: Option<BindModel>): (r: seq<BindModel>)
    ensures item.None? ==> r == models
    ensures |r| <= |models|
    ensures forall m | m in r :: m in models
  {
    match item
    case None => models
    case Some(x) => RemoveFirst(models, x)
  }

  /** List<T>.FindAll with the predicate "references property p", keeping the list's order. */
  function FindAll(models: seq<BindModel>, p: PropId): (snapshot: seq<BindModel>)
    ensures forall m :: m in snapshot <==> m in models && m.reactiveProperty == p
  {
    if models == [] then []
    else
      assert models == [models[0]] + models[1..];
      (if models[0].reactiveProperty == p then [models[0]] else []) + FindAll(models[1..], p)
  }

  /** The records that do not reference property p, in the list's order. */
  function Others(models: seq<BindModel>, p: PropId): (rest: seq<BindModel>)
    ensures forall m :: m in rest <==> m in models && m.reactiveProperty != p
  {
    if models == [] then []
    else
      assert models == [models[0]] + models[1..];
      (if models[0].reactiveProperty != p then [models[0]] else []) + Others(models[1..], p)
  }

  /** Every record is in exactly one of FindAll(p) and Others(p): N and M - N. */
  lemma {:induction false} FindAllPartition(models: seq<BindModel>, p: PropId)
    ensures |FindAll(models, p)| + |Others(models, p)| == |models|
  {
    if models != [] {
      FindAllPartition(models[1..], p);
    }
  }
}

/**
  Binder<T>: keeps the list of bindings between reactive properties and UI
  fields, and changes it in place. Each method is proved to leave the
  binder exactly in the state the matching function of BinderSpec gives, and
  to keep BinderSpec.Invariant (at most one record per pair).

  The effects on the outside world (callbacks registered on fields,
  subscriptions made and disposed, error messages) are ghost fields.
 */
module MvLib {
  import opened Bindings
  import BinderSpec
  import BinderProperties

  class Binder {
    var bindModels: seq<BindModel>
    ghost var registered: set<(FieldId, Handle)>
    ghost var live: set<Handle>
    ghost var drawerCallbacks: set<(Handle, Handle)>
    ghost var log: seq<string>
    /** Source of new identities: every object the binder creates gets the next one. */
    var nextHandle: Handle

    ghost function Abs(): BinderSpec.State
      reads this
    {
      BinderSpec.State(bindModels, registered, live, drawerCallbacks, log, nextHandle)
    }

    ghost predicate Valid()
      reads this
    {
      BinderSpec.Invariant(Abs())
    }

    constructor ()
      ensures Valid() && Abs() == BinderSpec.Initial()
    {
      bindModels := [];
      registered, live, drawerCallbacks, log := {}, {}, {}, [];
      nextHandle := 0;
    }

    /** Bind(reactiveProp, field). */
    method Bind(p: PropId, f: FieldId)
      requires Valid()
      modifies this
      ensures Valid()
      ensures Abs() == BinderSpec.Bind(old(Abs()), p, f)
    {
      ghost var s0 := Abs();
      BinderProperties.InvariantSubscribe(s0, f);
      BinderProperties.InvariantBind(s0, p, f);
      var callback := nextHandle;
      registered := registered + {(f, callback)};
      var disposable := nextHandle + 1;
      live := live + {disposable};
      nextHandle := nextHandle + 2;
      assert Abs() == BinderSpec.Subscribe(s0, f);

      var bindModel := Find(bindModels, p, f);
      if bindModel.None? {
        bindModels := bindModels + [BindModel(p, f, callback, disposable)];
        assert Abs() == BinderSpec.Bind(s0, p, f);
      } else {
        assert BinderSpec.Bind(s0, p, f) == BinderSpec.UnBind(Abs(), p, f);
        UnBind(p, f);
      }
    }

    /** Bind(serializedObject, reactiveProp, field), the container's fields given by name. */
    method BindByName(fields: map<string, PropId>, name: string, target: string, f: FieldId)
      returns (valueField: Option<Handle>)
      requires Valid()
      modifies this
      ensures Valid()
      ensures (Abs(), valueField) == BinderSpec.BindByName(old(Abs()), fields, name, target, f)
    {
      if name !in fields {
        log := log + [BinderSpec.NotFoundMessage(name, target)];
        return None;
      }
      ghost var s0 := Abs();
      BinderProperties.InvariantAllocateDrawer(s0);
      var reactivePropValue := fields[name];
      var element := nextHandle;
      drawerCallbacks := drawerCallbacks + {(element, nextHandle + 1)};
      nextHandle := nextHandle + 2;
      assert Abs() == BinderSpec.AllocateDrawer(s0);
      Bind(reactivePropValue, f);
      valueField := Some(element);
    }

    /** UnBind(reactiveProp, field). */
    method UnBind(p: PropId, f: FieldId)
      requires Valid()
      modifies this
      ensures Valid()
      ensures Abs() == BinderSpec.UnBind(old(Abs()), p, f)
    {
      BinderProperties.InvariantUnBind(Abs(), p, f);
      var bindModel := Find(bindModels, p, f);
      if bindModel.Some? {
        registered := registered - {(f, bindModel.value.callback)};
        live := live - {bindModel.value.disposable};
      }
      bindModels := Remove(bindModels, bindModel);
    }

    /** UnBindAll(reactiveProp): unbind each record of a FindAll snapshot. */
    method UnBindAll(p: PropId)
      requires Valid()
      modifies this
      ensures Valid()
      ensures Abs() == BinderSpec.UnBindAll(old(Abs()), p)
    {
      var snapshot := FindAll(bindModels, p);
      var i := 0;
      while i < |snapshot|
        invariant 0 <= i <= |snapshot|
        invariant Valid()
        invariant BinderSpec.UnBindEach(Abs(), p, snapshot[i..]) == BinderSpec.UnBindAll(old(Abs()), p)
      {
        assert snapshot[i..][1..] == snapshot[i + 1..];
        UnBind(p, snapshot[i].field);
        i := i + 1;
      }
    }

    /** Dispose(): unbind the record at each index of the shrinking list, then Clear(). */
    method Dispose()
      requires Valid()
      modifies this
      ensures Valid()
      ensures Abs() == BinderSpec.Dispose(old(Abs()))
    {
      BinderProperties.InvariantDispose(Abs());
      var i := 0;
      while i < |bindModels|
        invariant Valid()
        invariant BinderSpec.DisposeFrom(Abs(), i) == BinderSpec.DisposeFrom(old(Abs()), 0)
        decreases |bindModels| - i
      {
        UnBind(bindModels[i].reactiveProperty, bindModels[i].field);
        i := i + 1;
      }
      assert BinderSpec.DisposeFrom(Abs(), i) == Abs();
      bindModels := [];
    }
  }
}

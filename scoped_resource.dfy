/**
 * `Scoped_resource` (WindowsCommon/ScopedWindowsTypes.h): a move-only owner of a Windows
 * resource handle that hands the handle to its deleter once, when it is destroyed or
 * explicitly invoked, unless ownership was released or moved away first.
 */
module ScopedResource {

  /** The deleter functor: empty (default-constructed or moved from), or a release function. */
  datatype Deleter = NoDeleter | Deleter(id: nat)

  /** One call of a deleter on a handle: the observable effect of releasing it. */
  datatype Deletion = Deletion(deleter: nat, resource: nat)

  /** Every deleter call made so far, in order. */
  class DeletionLog {
    var calls: seq<Deletion>

    constructor ()
      ensures calls == []
    {
      calls := [];
    }
  }

  class ScopedResource {
    var deleter: Deleter
    var resource: nat
    const log: DeletionLog

    /** A held handle always has a deleter to call. */
    predicate Valid()
      reads this
    {
      resource != 0 ==> deleter.Deleter?
    }

    /** The default constructor: holds 0 and an empty deleter. */
    constructor Empty(log: DeletionLog)
      ensures Valid() && resource == 0 && deleter == NoDeleter && this.log == log
    {
      this.deleter := NoDeleter;
      this.resource := 0;
      this.log := log;
    }

    /** Takes ownership of `resource` with `deleter`. */
    constructor (resource: nat, deleter: Deleter, log: DeletionLog)
      requires resource != 0 ==> deleter.Deleter?
      ensures Valid() && this.resource == resource && this.deleter == deleter && this.log == log
    {
      this.deleter := deleter;
      this.resource := resource;
      this.log := log;
    }

    /**
     * The move constructor: takes the other's deleter and handle, then releases the other,
     * which is left holding 0; no deleter is called.
     */
    constructor Move(other: ScopedResource)
      requires other.Valid()
      modifies other
      ensures Valid() && other.Valid()
      ensures deleter == old(other.deleter) && resource == old(other.resource) && log == other.log
      ensures other.resource == 0 && other.deleter == NoDeleter
    {
      this.deleter := other.deleter;
      this.resource := other.resource;
      this.log := other.log;
      new;
      other.deleter := NoDeleter;
      var _ := other.Release();
    }

    /**
     * `invoke`: a held handle goes to the deleter exactly once and the owner then holds 0;
     * holding 0, nothing happens.
     */
    method Invoke()
      requires Valid()
      modifies this, log
      ensures Valid() && resource == 0 && deleter == old(deleter)
      ensures old(resource) != 0 ==> log.calls == old(log.calls) + [Deletion(old(deleter).id, old(resource))]
      ensures old(resource) == 0 ==> log.calls == old(log.calls)
    {
      if resource != 0 {
        log.calls := log.calls + [Deletion(deleter.id, resource)];
        resource := 0;
      }
    }

    /** `release`: hands the handle back to the caller, holds 0, and calls no deleter. */
    method Release() returns (released: nat)
      modifies this
      ensures released == old(resource) && resource == 0 && deleter == old(deleter)
    {
      released := resource;
      resource := 0;
    }

    /** The destructor: `invoke`. */
    method Destroy()
      requires Valid()
      modifies this, log
      ensures Valid() && resource == 0
      ensures old(resource) != 0 ==> log.calls == old(log.calls) + [Deletion(old(deleter).id, old(resource))]
      ensures old(resource) == 0 ==> log.calls == old(log.calls)
    {
      Invoke();
    }

    /**
     * Move assignment: unless both are the same object, first delete the handle held
     * here, then take the other's deleter and handle and leave the other holding 0.
     * Assigning an object to itself changes nothing.
     */
    method MoveAssign(other: ScopedResource)
      requires Valid() && other.Valid() && other.log == log
      modifies this, other, log
      ensures Valid() && other.Valid()
      ensures other == this ==> resource == old(resource) && deleter == old(deleter) && log.calls == old(log.calls)
      ensures other != this ==>
        && resource == old(other.resource) && deleter == old(other.deleter) && other.resource == 0
        && log.calls == old(log.calls) + (if old(resource) != 0 then [Deletion(old(deleter).id, old(resource))] else [])
    {
      if this != other {
        Invoke();
        deleter := other.deleter;
        resource := other.resource;
        other.deleter := NoDeleter;
        var _ := other.Release();
      }
    }

    /** `operator const RESOURCE&`: the handle held now; a held handle has its deleter. */
    function Get(): (r: nat)
      reads this
      ensures r == resource
      ensures Valid() && r != 0 ==> deleter.Deleter?
    {
      resource
    }
  }

  /**
   * A handle moved from owner to owner, by construction and by assignment onto an owner
   * that holds another handle, is deleted exactly once when all owners are destroyed,
   * and the other handle once when it is overwritten.
   */
  method OwnershipScenario(handle: nat, other: nat) returns (calls: seq<Deletion>)
    requires handle != 0 && other != 0
    ensures calls == [Deletion(2, other), Deletion(1, handle)]
  {
    var log := new DeletionLog();
    var a := new ScopedResource(handle, Deleter(1), log);
    var b := new ScopedResource.Move(a);
    var c := new ScopedResource(other, Deleter(2), log);
    c.MoveAssign(b);
    c.MoveAssign(c);
    a.Destroy();
    b.Destroy();
    c.Destroy();
    c.Destroy();
    calls := log.calls;
  }

  /** Releasing hands the handle back and no deleter is ever called for it. */
  method ReleaseScenario(handle: nat) returns (released: nat, calls: seq<Deletion>)
    requires handle != 0
    ensures released == handle && calls == []
  {
    var log := new DeletionLog();
    var a := new ScopedResource(handle, Deleter(1), log);
    released := a.Release();
    a.Destroy();
    calls := log.calls;
  }
}

/** The cached ordering of a query, stamped with a write counter. */
module OrderCache {

  // Each member function of Order is what one method of the class Cache does under its lock.

  datatype Lookup<T> = Miss | Hit(ids: T)

  datatype Order<T> = Order(version: nat, key: string, ids: T, valid: bool) {
    function Bumped(none: T): Order<T> {
      this.(version := version + 1, valid := false, ids := none)
    }

    function Found(k: string): Lookup<T> {
      if valid && key == k then Hit(ids) else Miss
    }

    function Stored(k: string, v: nat, computed: T): Order<T> {
      if version != v then this else this.(key := k, ids := computed, valid := true)
    }
  }

  /** The cache as the store holds it. */
  class Cache {
    var version: nat
    var key: string
    var ids: seq<nat>
    var valid: bool

    ghost function State(): Order<seq<nat>>
      reads this
    {
      Order(version, key, ids, valid)
    }

    constructor ()
      ensures State() == Order(0, "", [], false)
    {
      version, key, ids, valid := 0, "", [], false;
    }

    method BumpVersion()
      modifies this
      ensures State() == old(State()).Bumped([])
      ensures version == old(version) + 1 && forall k :: State().Found(k) == Miss
    {
      version := version + 1;
      valid := false;
      ids := [];
    }

    method LookupOrder(k: string) returns (r: Lookup<seq<nat>>)
      ensures r == State().Found(k)
    {
      if !valid || key != k {
        return Miss;
      }
      r := Hit(ids);
    }

    method StoreOrder(k: string, v: nat, computed: seq<nat>)
      modifies this
      ensures State() == old(State()).Stored(k, v, computed)
      ensures v == version ==> forall l :: State().Found(l) == if l == k then Hit(computed) else Miss
      ensures v != version ==> State() == old(State())
      ensures version == old(version)
    {
      if version != v {
        return;
      }
      key, ids, valid := k, computed, true;
    }
  }
}

/** The class-level state of `User`: the pool that `User.all` builds on its
    first call and keeps in `@all` for every later call. */
module Directory {
  import opened Results
  import opened UserModel

  class UserDirectory {
    /** The random ages drawn while the pool is built, one per id. */
    const ages: seq<int>
    /** The cache `@all`: `None` until the pool has been built. */
    var all: Option<seq<User>>
    /** How many times the pool has been built. */
    ghost var builds: nat

    ghost predicate Valid()
      reads this
    {
      |ages| == PoolSize &&
      (all.Some? ==> all.value == Pool(ages)) &&
      builds == (if all.Some? then 1 else 0)
    }

    /** The class before anything has called `User.all`. */
    constructor (ages: seq<int>)
      requires |ages| == PoolSize
      ensures Valid() && this.ages == ages && all == None && builds == 0
    {
      this.ages := ages;
      all := None;
      builds := 0;
    }

    /** `User.all`: builds the pool on the first call only, then answers
        from the cache. */
    method All() returns (users: seq<User>)
      requires Valid()
      modifies this
      ensures Valid() && all == Some(users) && users == Pool(ages)
      ensures old(all).Some? ==> users == old(all).value && unchanged(this)
      ensures builds == 1
    {
      if all.None? {
        all := Some(Pool(ages));
        builds := builds + 1;
      }
      users := all.value;
    }

    /** `User.find_by_ids`: the cached pool filtered by `ids`. */
    method FindByIds(ids: seq<int>) returns (users: seq<User>)
      requires Valid()
      modifies this
      ensures Valid() && all == Some(Pool(ages)) && builds == 1
      ensures users == UserModel.FindByIds(Pool(ages), ids)
      ensures old(all).Some? ==> unchanged(this)
    {
      var pool := All();
      users := UserModel.FindByIds(pool, ids);
    }
  }

  /** Warming the cache once (as the script does right after the class) and
      asking again builds the pool only once and returns the same users. */
  method WarmThenAsk(d: UserDirectory) returns (first: seq<User>, second: seq<User>)
    requires d.Valid()
    modifies d
    ensures first == second && d.builds == 1
  {
    first := d.All();
    second := d.All();
  }
}

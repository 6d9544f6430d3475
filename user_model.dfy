/** The `User` records and the pure part of the `User` class: the pool that
    `User.all` builds and the filter `User.find_by_ids` applies to it. */
module UserModel {

  /** One user record; never mutated once built. */
  datatype User = User(id: int, name: string, age: int, email: string)

  /** Number of users in the pool: ids run over `1..1000`. */
  const PoolSize: nat := 1000

  // ---------------------------------------------------------------------
  // Decimal rendering of an id, as string interpolation prints it.

  predicate AllDigits(s: string) {
    forall i :: 0 <= i < |s| ==> '0' <= s[i] <= '9'
  }

  function DigitChar(d: nat): (c: char)
    requires d < 10
    ensures '0' <= c <= '9'
  {
    ('0' as int + d) as char
  }

  function DigitValue(c: char): nat
    requires '0' <= c <= '9'
  {
    c as int - '0' as int
  }

  /** The decimal digits of `n`, most significant first, without leading zeros. */
  function Decimal(n: nat): (s: string)
    ensures |s| >= 1 && AllDigits(s)
    ensures n > 0 ==> s[0] != '0'
  {
    if n < 10 then [DigitChar(n)] else Decimal(n / 10) + [DigitChar(n % 10)]
  }

  /** The number a string of decimal digits denotes. */
  function DecimalValue(s: string): nat
    requires AllDigits(s)
  {
    if |s| == 0 then 0 else 10 * DecimalValue(s[..|s| - 1]) + DigitValue(s[|s| - 1])
  }

  /** Reading back the digits of `n` gives `n`. */
  lemma {:induction false} DecimalRoundTrip(n: nat)
    ensures DecimalValue(Decimal(n)) == n
  {
    if n >= 10 {
      var s := Decimal(n);
      assert s[..|s| - 1] == Decimal(n / 10);
      DecimalRoundTrip(n / 10);
    }
  }

  /** Different ids print differently. */
  lemma DecimalInjective(a: nat, b: nat)
    requires Decimal(a) == Decimal(b)
    ensures a == b
  {
    DecimalRoundTrip(a);
    DecimalRoundTrip(b);
  }

  // ---------------------------------------------------------------------
  // The pool built by `User.all`.

  /** The user `User.all` creates for `id`, given the age `rand` drew for it. */
  function NewUser(id: nat, age: int): User {
    User(id, "Name" + Decimal(id), age, "someone" + Decimal(id) + "@domain" + Decimal(id) + ".pl")
  }

  /** The pool `User.all` builds: one user per id from 1 to 1000, in that
      order, where `ages[id - 1]` is the age drawn for `id`. */
  function Pool(ages: seq<int>): (pool: seq<User>)
    requires |ages| == PoolSize
    ensures |pool| == PoolSize
    ensures forall i :: 0 <= i < PoolSize ==>
      pool[i].id == i + 1 && pool[i].age == ages[i] && pool[i] == NewUser(i + 1, ages[i])
  {
    seq(PoolSize, i requires 0 <= i < PoolSize => NewUser(i + 1, ages[i]))
  }

  /** The set of ids that occur in `users`. */
  function IdSet(users: seq<User>): set<int> {
    set u | u in users :: u.id
  }

  /** Ids strictly increase along `users` (so no id occurs twice). */
  predicate AscendingIds(users: seq<User>) {
    forall i, j :: 0 <= i < j < |users| ==> users[i].id < users[j].id
  }

  /** The pool holds exactly the ids `1..1000`. */
  lemma PoolIds(ages: seq<int>, k: int)
    requires |ages| == PoolSize
    ensures k in IdSet(Pool(ages)) <==> 1 <= k <= PoolSize
  {
    var pool := Pool(ages);
    if 1 <= k <= PoolSize {
      assert pool[k - 1].id == k;
      assert pool[k - 1] in pool;
    }
  }

  /** The pool is in ascending id order. */
  lemma PoolAscending(ages: seq<int>)
    requires |ages| == PoolSize
    ensures AscendingIds(Pool(ages))
  {
  }

  /** Each user of the pool has its own name ("Name" followed by its id). */
  lemma PoolNamesDistinct(ages: seq<int>, i: nat, j: nat)
    requires |ages| == PoolSize && i < PoolSize && j < PoolSize && i != j
    ensures Pool(ages)[i].name != Pool(ages)[j].name
  {
    var pool := Pool(ages);
    if pool[i].name == pool[j].name {
      assert Decimal(i + 1) == pool[i].name[4..];
      assert Decimal(j + 1) == pool[j].name[4..];
      DecimalInjective(i + 1, j + 1);
    }
  }

  // ---------------------------------------------------------------------
  // `User.find_by_ids`: keep the users of the pool whose id is listed.

  /** The users of `all` whose id occurs in `ids`, in the order of `all`. */
  function FindByIds(all: seq<User>, ids: seq<int>): (found: seq<User>)
    ensures |found| <= |all|
    ensures forall u :: u in found ==> u in all && u.id in ids
  {
    if |all| == 0 then []
    else (if all[0].id in ids then [all[0]] else []) + FindByIds(all[1..], ids)
  }

  /** A user is found exactly when it is in `all` and its id was asked for. */
  lemma {:induction false} FindByIdsMembership(all: seq<User>, ids: seq<int>, u: User)
    ensures u in FindByIds(all, ids) <==> u in all && u.id in ids
  {
    if |all| > 0 {
      FindByIdsMembership(all[1..], ids, u);
      assert all == [all[0]] + all[1..];
    }
  }

  /** Filtering a concatenation filters each part and keeps them in order:
      the result follows the order of `all`, not that of `ids`. */
  lemma {:induction false} FindByIdsAppend(a: seq<User>, b: seq<User>, ids: seq<int>)
    ensures FindByIds(a + b, ids) == FindByIds(a, ids) + FindByIds(b, ids)
  {
    if |a| == 0 {
      assert a + b == b;
    } else {
      assert (a + b)[1..] == a[1..] + b;
      FindByIdsAppend(a[1..], b, ids);
    }
  }

  /** `sub` can be obtained from `s` by deleting elements. */
  ghost predicate Subsequence(sub: seq<User>, s: seq<User>)
    decreases |s|
  {
    |sub| == 0 ||
    (|s| > 0 && ((sub[0] == s[0] && Subsequence(sub[1..], s[1..])) || Subsequence(sub, s[1..])))
  }

  /** The found users are a subsequence of `all`: nothing is reordered. */
  lemma {:induction false} FindByIdsSubsequence(all: seq<User>, ids: seq<int>)
    ensures Subsequence(FindByIds(all, ids), all)
  {
    if |all| > 0 {
      FindByIdsSubsequence(all[1..], ids);
      var found := FindByIds(all, ids);
      if all[0].id in ids {
        assert found[0] == all[0] && found[1..] == FindByIds(all[1..], ids);
        assert Subsequence(found[1..], all[1..]);
      } else {
        assert found == FindByIds(all[1..], ids);
        assert Subsequence(found, all[1..]);
      }
    }
  }

  /** Only which ids are asked for matters: duplicates and their order do not. */
  lemma {:induction false} FindByIdsSameIds(all: seq<User>, ids1: seq<int>, ids2: seq<int>)
    requires forall k :: k in ids1 <==> k in ids2
    ensures FindByIds(all, ids1) == FindByIds(all, ids2)
  {
    if |all| > 0 {
      FindByIdsSameIds(all[1..], ids1, ids2);
    }
  }

  /** Asking for no ids finds no users (`find_by_ids` with its default `[]`). */
  lemma {:induction false} FindByIdsNoIds(all: seq<User>)
    ensures FindByIds(all, []) == []
  {
    if |all| > 0 {
      FindByIdsNoIds(all[1..]);
    }
  }

  /** An id that no user has contributes nothing. */
  lemma {:induction false} FindByIdsUnknownId(all: seq<User>, ids: seq<int>, k: int)
    requires k !in IdSet(all)
    ensures FindByIds(all, ids + [k]) == FindByIds(all, ids)
  {
    if |all| > 0 {
      assert all[0] in all;
      assert IdSet(all[1..]) <= IdSet(all) by {
        forall u | u in all[1..] ensures u in all { }
      }
      FindByIdsUnknownId(all[1..], ids, k);
    }
  }

  /** Filtering keeps ids in ascending order when `all` has them so. */
  lemma {:induction false} FindByIdsAscending(all: seq<User>, ids: seq<int>)
    requires AscendingIds(all)
    ensures AscendingIds(FindByIds(all, ids))
  {
    if |all| > 0 {
      var rest := all[1..];
      FindByIdsAscending(rest, ids);
      var tail := FindByIds(rest, ids);
      forall v | v in tail ensures all[0].id < v.id {
        var j :| 0 <= j < |rest| && rest[j] == v;
        assert all[j + 1] == v;
      }
    }
  }

  /** The ids of a non-empty sequence are its first id and those of the rest. */
  lemma IdSetSplit(all: seq<User>)
    requires |all| > 0
    ensures IdSet(all) == {all[0].id} + IdSet(all[1..])
  {
  }

  /** With ascending ids, the first id does not recur in the rest. */
  lemma AscendingHead(all: seq<User>)
    requires |all| > 0 && AscendingIds(all)
    ensures AscendingIds(all[1..]) && all[0].id !in IdSet(all[1..])
  {
  }

  /** The distinct ids asked for that some user of `users` has. */
  function Matched(users: seq<User>, ids: seq<int>): set<int> {
    set k | k in ids && k in IdSet(users)
  }

  lemma MatchedSplit(all: seq<User>, ids: seq<int>)
    requires |all| > 0
    ensures Matched(all, ids) == (if all[0].id in ids then {all[0].id} else {}) + Matched(all[1..], ids)
  {
    IdSetSplit(all);
  }

  /** With ascending ids in `all`, one user is found per distinct id asked
      for that some user has. */
  lemma {:induction false} FindByIdsCount(all: seq<User>, ids: seq<int>)
    requires AscendingIds(all)
    ensures |FindByIds(all, ids)| == |Matched(all, ids)|
  {
    if |all| == 0 {
      assert IdSet(all) == {};
      assert Matched(all, ids) == {};
    } else {
      var rest := all[1..];
      AscendingHead(all);
      MatchedSplit(all, ids);
      FindByIdsCount(rest, ids);
      assert all[0].id !in Matched(rest, ids);
    }
  }

  /** In the pool, one user is found per distinct id in `1..1000` asked for. */
  lemma PoolFindCount(ages: seq<int>, ids: seq<int>)
    requires |ages| == PoolSize
    ensures |FindByIds(Pool(ages), ids)| == |set k | k in ids && 1 <= k <= PoolSize|
  {
    var pool := Pool(ages);
    PoolAscending(ages);
    FindByIdsCount(pool, ids);
    forall k ensures k in IdSet(pool) <==> 1 <= k <= PoolSize {
      PoolIds(ages, k);
    }
    assert Matched(pool, ids) == (set k | k in ids && 1 <= k <= PoolSize);
  }
}

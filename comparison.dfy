/** What the benchmark compares: the two services on the same pool, ids and
    message, and the script's own input `PARAMS`. */
module Comparison {
  import opened Results
  import opened UserModel
  import Regular
  import Functional

  /** The ids of `PARAMS`. */
  const ParamIds: seq<int> := [66, 1, 5, 6, 10, 99, 32]
  /** The message of `PARAMS`. */
  const ParamMessage: string := "This is a message for %user_email%"

  /** Both variants format the outbound text identically. */
  lemma SameFormatting(message: string)
    ensures Functional.FormatMessage(message) == Success(Regular.FormattedMessage(message))
  {
  }

  /** For a non-empty message the two services return the same outcome. */
  lemma AgreeOnNonEmptyMessage(all: seq<User>, userIds: seq<int>, message: string)
    requires |message| > 0
    ensures Functional.Call(all, userIds, message) == Regular.Dispatch(all, userIds, message)
  {
    var functional := Functional.Call(all, userIds, message).value;
    var regular := Regular.Dispatch(all, userIds, message).value;
    assert |functional| == |regular|;
    assert forall i :: 0 <= i < |functional| ==> functional[i] == regular[i];
    assert functional == regular;
  }

  /** For an empty message they differ: the regular service fails, the
      functional one reports every found user as delivered. */
  lemma DifferOnEmptyMessage(all: seq<User>, userIds: seq<int>)
    ensures Regular.Dispatch(all, userIds, "") == Failure(CantSendEmptyMessage)
    ensures Functional.Call(all, userIds, "") == Success(Regular.Report(FindByIds(all, userIds), ""))
  {
    var functional := Functional.Call(all, userIds, "").value;
    var report := Regular.Report(FindByIds(all, userIds), "");
    assert |functional| == |report|;
    assert forall i :: 0 <= i < |functional| ==> functional[i] == report[i];
    assert functional == report;
  }

  /** With the early return restored, the functional service agrees with the
      regular one on every input. */
  lemma CheckedAgrees(all: seq<User>, userIds: seq<int>, message: string)
    ensures Functional.CallChecked(all, userIds, message) == Regular.Dispatch(all, userIds, message)
  {
    if |message| > 0 {
      AgreeOnNonEmptyMessage(all, userIds, message);
    }
  }

  // The ids of the found users are compared with a literal list of
  // integers, so ascending order is restated here on `seq<int>`; it is
  // `UserModel.AscendingIds` read through `IdsOf`.

  /** The ids of `users`, in order. */
  function IdsOf(users: seq<User>): seq<int> {
    seq(|users|, i requires 0 <= i < |users| => users[i].id)
  }

  predicate Ascending(s: seq<int>) {
    forall i, j :: 0 <= i < j < |s| ==> s[i] < s[j]
  }

  /** Dropping the first element keeps a sequence ascending. */
  lemma AscendingTail(a: seq<int>)
    requires |a| > 0 && Ascending(a)
    ensures Ascending(a[1..])
    ensures forall k :: k in a[1..] ==> a[0] < k
  {
  }

  /** Two ascending sequences of one length with the same elements are equal. */
  lemma {:induction false} AscendingUnique(a: seq<int>, b: seq<int>)
    requires |a| == |b| && Ascending(a) && Ascending(b)
    requires forall k :: k in a <==> k in b
    ensures a == b
  {
    if |a| > 0 {
      AscendingTail(a);
      AscendingTail(b);
      assert a[0] in a && b[0] in b;
      assert a == [a[0]] + a[1..] && b == [b[0]] + b[1..];
      var j :| 0 <= j < |b| && b[j] == a[0];
      assert b[0] <= a[0];
      var i :| 0 <= i < |a| && a[i] == b[0];
      assert a[0] <= b[0];
      forall k ensures k in a[1..] <==> k in b[1..] {
        assert k in a <==> k == a[0] || k in a[1..];
        assert k in b <==> k == b[0] || k in b[1..];
      }
      AscendingUnique(a[1..], b[1..]);
    }
  }

  /** Seven distinct ids of `PARAMS` lie in `1..1000`. */
  lemma ParamsCount(ages: seq<int>)
    requires |ages| == PoolSize
    ensures |FindByIds(Pool(ages), ParamIds)| == 7
  {
    PoolFindCount(ages, ParamIds);
    assert (set k | k in ParamIds && 1 <= k <= PoolSize) == {1, 5, 6, 10, 32, 66, 99};
  }

  /** An id is among those found for `PARAMS` exactly when it is one of the
      seven asked for. */
  lemma ParamsMembership(ages: seq<int>, k: int)
    requires |ages| == PoolSize
    ensures k in IdsOf(FindByIds(Pool(ages), ParamIds)) <==> k in [1, 5, 6, 10, 32, 66, 99]
  {
    var pool := Pool(ages);
    var found := FindByIds(pool, ParamIds);
    var ids := IdsOf(found);
    PoolIds(ages, k);
    if k in ids {
      var i :| 0 <= i < |ids| && ids[i] == k;
      FindByIdsMembership(pool, ParamIds, found[i]);
      assert found[i] in pool;
    }
    if k in [1, 5, 6, 10, 32, 66, 99] {
      var u := pool[k - 1];
      assert u in pool;
      FindByIdsMembership(pool, ParamIds, u);
      var i :| 0 <= i < |found| && found[i] == u;
      assert ids[i] == k;
    }
  }

  /** The users `PARAMS` finds in the pool have ids 1, 5, 6, 10, 32, 66, 99. */
  lemma ParamsFound(ages: seq<int>)
    requires |ages| == PoolSize
    ensures IdsOf(FindByIds(Pool(ages), ParamIds)) == [1, 5, 6, 10, 32, 66, 99]
  {
    var found := FindByIds(Pool(ages), ParamIds);
    var ids := IdsOf(found);
    PoolAscending(ages);
    FindByIdsAscending(Pool(ages), ParamIds);
    ParamsCount(ages);
    forall k ensures k in ids <==> k in [1, 5, 6, 10, 32, 66, 99] {
      ParamsMembership(ages, k);
    }
    AscendingUnique(ids, [1, 5, 6, 10, 32, 66, 99]);
  }

  /** On the script's input, both services report the seven users, in
      ascending id order, all delivered. */
  lemma ParamsReport(ages: seq<int>)
    requires |ages| == PoolSize
    ensures Regular.Dispatch(Pool(ages), ParamIds, ParamMessage) == Success([
      Record(1, Delivered), Record(5, Delivered), Record(6, Delivered), Record(10, Delivered),
      Record(32, Delivered), Record(66, Delivered), Record(99, Delivered)])
    ensures Functional.Call(Pool(ages), ParamIds, ParamMessage)
         == Regular.Dispatch(Pool(ages), ParamIds, ParamMessage)
  {
    var found := FindByIds(Pool(ages), ParamIds);
    ParamsFound(ages);
    assert |found| == |IdsOf(found)| == 7;
    var records := Regular.Dispatch(Pool(ages), ParamIds, ParamMessage).value;
    var expected := [
      Record(1, Delivered), Record(5, Delivered), Record(6, Delivered), Record(10, Delivered),
      Record(32, Delivered), Record(66, Delivered), Record(99, Delivered)];
    forall i | 0 <= i < 7 ensures records[i] == expected[i] {
      assert found[i].id == IdsOf(found)[i];
    }
    assert records == expected;
    AgreeOnNonEmptyMessage(Pool(ages), ParamIds, ParamMessage);
  }
}

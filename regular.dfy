/** `RegularService`: plain early-return code over a service object that
    remembers its ids and message and memoises the users it looked up. */
module Regular {
  import opened Results
  import opened UserModel
  import opened Directory

  /** `send_message`: the delivery stub, which reports success for every
      address and text. */
  function SendMessage(email: string, text: string): (ok: bool)
    ensures ok
  {
    true
  }

  /** `formated_message`: the text sent to every recipient. */
  function FormattedMessage(message: string): (text: string)
    ensures |text| == 9 + |message|
    ensures text[..9] == "Message: " && text[9..] == message
  {
    "Message: " + message
  }

  /** Distinct messages give distinct texts: the message is kept verbatim. */
  lemma FormattedMessageInjective(m1: string, m2: string)
    requires FormattedMessage(m1) == FormattedMessage(m2)
    ensures m1 == m2
  {
  }

  /** `send_messages` over the given users: one `{id, status}` record per user. */
  function Report(users: seq<User>, message: string): (records: seq<Record>)
    ensures |records| == |users|
    ensures forall i :: 0 <= i < |users| ==> records[i] == Record(users[i].id, Delivered)
  {
    seq(|users|, i requires 0 <= i < |users| =>
      Record(users[i].id,
             if SendMessage(users[i].email, FormattedMessage(message)) then Delivered else Error))
  }

  /** `call` on a service for `userIds` and `message`, with `all` the pool. */
  function Dispatch(all: seq<User>, userIds: seq<int>, message: string): (r: Result<seq<Record>>)
    ensures r.Failure? <==> |message| == 0
    ensures r.Failure? ==> r.error == CantSendEmptyMessage
    ensures r.Success? ==> |r.value| == |FindByIds(all, userIds)|
    ensures r.Success? ==> forall i :: 0 <= i < |r.value| ==>
      r.value[i] == Record(FindByIds(all, userIds)[i].id, Delivered)
  {
    if |message| == 0 then Failure(CantSendEmptyMessage)
    else Success(Report(FindByIds(all, userIds), message))
  }

  /** No record ever carries `'error'`, since the stub always succeeds. */
  lemma NeverError(all: seq<User>, userIds: seq<int>, message: string, i: int)
    requires |message| > 0
    requires 0 <= i < |Dispatch(all, userIds, message).value|
    ensures Dispatch(all, userIds, message).value[i].status == Delivered
  {
  }

  /** For a non-empty message, each record names the id of a user of the
      pool that was asked for, and each such user is reported. */
  lemma DispatchRecipients(ages: seq<int>, userIds: seq<int>, message: string, k: int)
    requires |ages| == PoolSize && |message| > 0
    ensures Dispatch(Pool(ages), userIds, message).Success?
    ensures Record(k, Delivered) in Dispatch(Pool(ages), userIds, message).value
        <==> k in userIds && 1 <= k <= PoolSize
  {
    var pool := Pool(ages);
    var found := FindByIds(pool, userIds);
    var records := Dispatch(pool, userIds, message).value;
    PoolIds(ages, k);
    if Record(k, Delivered) in records {
      var i :| 0 <= i < |records| && records[i] == Record(k, Delivered);
      assert found[i] in found;
      FindByIdsMembership(pool, userIds, found[i]);
    }
    if k in userIds && 1 <= k <= PoolSize {
      var u := pool[k - 1];
      assert u in pool;
      FindByIdsMembership(pool, userIds, u);
      var i :| 0 <= i < |found| && found[i] == u;
      assert records[i] == Record(k, Delivered);
    }
  }

  /** For a non-empty message, one record per distinct id in `1..1000`
      asked for; unknown ids and repeated ids add none. */
  lemma DispatchCount(ages: seq<int>, userIds: seq<int>, message: string)
    requires |ages| == PoolSize && |message| > 0
    ensures Dispatch(Pool(ages), userIds, message).Success?
    ensures |Dispatch(Pool(ages), userIds, message).value| == |set k | k in userIds && 1 <= k <= PoolSize|
  {
    PoolFindCount(ages, userIds);
  }

  /** Records come in ascending id order: the order of the pool, not of the
      ids asked for. */
  lemma DispatchAscending(ages: seq<int>, userIds: seq<int>, message: string, i: int, j: int)
    requires |ages| == PoolSize && |message| > 0
    requires 0 <= i < j < |Dispatch(Pool(ages), userIds, message).value|
    ensures Dispatch(Pool(ages), userIds, message).value[i].id < Dispatch(Pool(ages), userIds, message).value[j].id
  {
    PoolAscending(ages);
    FindByIdsAscending(Pool(ages), userIds);
  }

  /** An id no user has yields a successful, empty report. */
  lemma UnknownIdReportsNothing(ages: seq<int>, message: string)
    requires |ages| == PoolSize && |message| > 0
    ensures Dispatch(Pool(ages), [999999], message) == Success([])
  {
    var found := FindByIds(Pool(ages), [999999]);
    if |found| > 0 {
      assert found[0] in found;
      PoolIds(ages, 999999);
    }
  }

  /** The service object: ids and message are fixed at construction, the
      looked-up users are memoised in `@users`. */
  class RegularService {
    const directory: UserDirectory
    const userIds: seq<int>
    const message: string
    /** The cache `@users`. */
    var users: Option<seq<User>>

    ghost predicate Valid()
      reads this, directory
    {
      directory.Valid() &&
      (users.Some? ==> users.value == FindByIds(Pool(directory.ages), userIds))
    }

    /** `initialize`: stores the ids and the message. */
    constructor (directory: UserDirectory, userIds: seq<int>, message: string)
      requires directory.Valid()
      ensures Valid() && users == None
      ensures this.directory == directory && this.userIds == userIds && this.message == message
    {
      this.directory := directory;
      this.userIds := userIds;
      this.message := message;
      users := None;
    }

    /** `users`: looks the ids up on the first call only. */
    method Users() returns (us: seq<User>)
      requires Valid()
      modifies this, directory
      ensures Valid() && users == Some(us)
      ensures us == FindByIds(Pool(directory.ages), userIds)
      ensures old(users).Some? ==> unchanged(directory)
      ensures old(directory.all).Some? ==> unchanged(directory)
      ensures old(users).None? ==> directory.all == Some(Pool(directory.ages)) && directory.builds == 1
    {
      if users.None? {
        var found := directory.FindByIds(userIds);
        users := Some(found);
      }
      us := users.value;
    }

    /** `send_messages`: one record per looked-up user. */
    method SendMessages() returns (records: seq<Record>)
      requires Valid()
      modifies this, directory
      ensures Valid() && users == Some(FindByIds(Pool(directory.ages), userIds))
      ensures records == Report(FindByIds(Pool(directory.ages), userIds), message)
      ensures old(users).Some? ==> unchanged(directory)
      ensures old(directory.all).Some? ==> unchanged(directory)
      ensures old(users).None? ==> directory.all == Some(Pool(directory.ages)) && directory.builds == 1
    {
      var us := Users();
      records := Report(us, message);
    }

    /** `call`: an empty message fails before any lookup; otherwise the
        records are wrapped in `Success`. */
    method Call() returns (r: Result<seq<Record>>)
      requires Valid()
      modifies this, directory
      ensures Valid()
      ensures r == Dispatch(Pool(directory.ages), userIds, message)
      ensures |message| == 0 ==> unchanged(this) && unchanged(directory)
      ensures |message| > 0 ==> users == Some(FindByIds(Pool(directory.ages), userIds))
      ensures old(users).Some? ==> users == old(users) && unchanged(directory)
      ensures old(directory.all).Some? ==> unchanged(directory)
      ensures |message| > 0 && old(users).None? ==>
        directory.all == Some(Pool(directory.ages)) && directory.builds == 1
    {
      if |message| == 0 {
        return Failure(CantSendEmptyMessage);
      }
      var records := SendMessages();
      r := Success(records);
    }
  }

  /** Calling the same service twice gives the same outcome; after a
      non-empty call the users are memoised. */
  method CallTwice(s: RegularService) returns (first: Result<seq<Record>>, second: Result<seq<Record>>)
    requires s.Valid()
    modifies s, s.directory
    ensures first == second
    ensures |s.message| > 0 ==> s.users.Some?
  {
    first := s.Call();
    second := s.Call();
  }

  /** A call on a service whose users are already memoised answers from
      that cache: it returns the same outcome and touches neither the
      cached users nor the directory. */
  method CallCached(s: RegularService) returns (r: Result<seq<Record>>)
    requires s.Valid() && s.users.Some?
    modifies s, s.directory
    ensures r == Dispatch(Pool(s.directory.ages), s.userIds, s.message)
    ensures s.users == old(s.users) && unchanged(s.directory)
  {
    r := s.Call();
  }
}

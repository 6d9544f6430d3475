/** `FunctionalService`: the same computation written as a chain of `bind`
    calls over `Success`/`Failure` values. */
module Functional {
  import opened Results
  import opened UserModel

  /** `format_message`. */
  function FormatMessage(message: string): (r: Result<string>)
    ensures r.Success? && |r.value| == 9 + |message|
    ensures r.value[..9] == "Message: " && r.value[9..] == message
  {
    Success("Message: " + message)
  }

  /** `send_message(message, email)`: formats the message, then succeeds
      with `:delivered` whatever the address. */
  function SendMessage(message: string, email: string): (r: Result<Status>)
    ensures r == Success(Delivered)
  {
    Success(message).Bind(FormatMessage).Bind(text => Success(Delivered))
  }

  /** `send_messages(message, users)`: a record per user, `'delivered'`
      when sending to the user's address yields a success. */
  function SendMessages(message: string, users: seq<User>): (r: Result<seq<Record>>)
    ensures r.Success? && |r.value| == |users|
    ensures forall i :: 0 <= i < |users| ==> r.value[i] == Record(users[i].id, Delivered)
  {
    Success(seq(|users|, i requires 0 <= i < |users| =>
      Record(users[i].id,
             if Success(users[i].email).Bind(email => SendMessage(message, email)).Success?
             then Delivered else Error)))
  }

  /** `users(user_ids)`. */
  function Users(all: seq<User>, userIds: seq<int>): (r: Result<seq<User>>)
    ensures r.Success? && |r.value| <= |all|
    ensures forall u :: u in r.value ==> u in all && u.id in userIds
  {
    Success(FindByIds(all, userIds))
  }

  /** `call(user_ids, message)` as written: the `Failure` built for an empty
      message is dropped, so the chain always runs and always succeeds. */
  function Call(all: seq<User>, userIds: seq<int>, message: string): (r: Result<seq<Record>>)
    ensures r.Success? && |r.value| == |FindByIds(all, userIds)|
    ensures forall i :: 0 <= i < |r.value| ==>
      r.value[i] == Record(FindByIds(all, userIds)[i].id, Delivered)
  {
    var dropped: Option<Result<seq<Record>>> :=
      if |message| == 0 then Some(Failure(CantSendEmptyMessage)) else None;
    Success(userIds)
      .Bind(ids => Users(all, ids))
      .Bind(users => SendMessages(message, users))
  }

  /** `call` with the evidently intended early return of that `Failure`. */
  function CallChecked(all: seq<User>, userIds: seq<int>, message: string): (r: Result<seq<Record>>)
    ensures r.Failure? <==> |message| == 0
    ensures r.Failure? ==> r.error == CantSendEmptyMessage
    ensures r.Success? ==> |r.value| == |FindByIds(all, userIds)|
  {
    if |message| == 0 then Failure(CantSendEmptyMessage)
    else Call(all, userIds, message)
  }
}

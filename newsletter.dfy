/** The `/subscribe` route of backend/routes/newsLetter.js over the subscriber collection. */
module Newsletter {
  import opened Base

  /** The route's reply: HTTP status code, `success` flag and message. */
  datatype Reply = Reply(code: int, success: bool, message: string)

  /** No email occurs twice. */
  predicate Distinct(emails: seq<string>) {
    forall i, j :: 0 <= i < j < |emails| ==> emails[i] != emails[j]
  }

  class Subscribers {
    /** The subscriber documents, in insertion order. */
    var emails: seq<string>

    ghost predicate Valid()
      reads this
    {
      Distinct(emails)
    }

    constructor ()
      ensures Valid() && emails == []
    {
      emails := [];
    }

    /** `POST /subscribe`: a missing or empty email is refused with 400, an email already
        subscribed (exact match) with 409; otherwise it is added and the reply is 200. */
    method Subscribe(email: Option<string>) returns (reply: Reply)
      requires Valid()
      modifies this
      ensures Valid()
      ensures (email.None? || email.value == "") ==>
        reply == Reply(400, false, "Email is required.") && emails == old(emails)
      ensures email.Some? && email.value != "" && email.value in old(emails) ==>
        reply == Reply(409, false, "Email already subscribed.") && emails == old(emails)
      ensures email.Some? && email.value != "" && email.value !in old(emails) ==>
        reply == Reply(200, true, "Subscribed successfully.") && emails == old(emails) + [email.value]
      ensures reply.success <==> |emails| == |old(emails)| + 1
    {
      if email.None? || email.value == "" {
        return Reply(400, false, "Email is required.");
      }
      var e := email.value;
      if e in emails {
        return Reply(409, false, "Email already subscribed.");
      }
      emails := emails + [e];
      reply := Reply(200, true, "Subscribed successfully.");
    }
  }

  /** After a successful subscription, subscribing the same email again is refused with 409 and
      adds nothing. */
  method SubscribeTwice(list: Subscribers, email: string)
    requires list.Valid() && email != "" && email !in list.emails
    modifies list
    ensures list.Valid() && list.emails == old(list.emails) + [email]
  {
    var first := list.Subscribe(Some(email));
    assert first.code == 200;
    var second := list.Subscribe(Some(email));
    assert second.code == 409;
  }
}

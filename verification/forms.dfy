/**
 * FormHandler in script.js: the two submit handlers and the single transient
 * message (showMessage) they report through.
 *
 * The document's `.form-message` elements are modelled as a sequence of messages in
 * document order. Each element gets a fresh identity when it is created. The delayed
 * removal that showMessage schedules is an explicit event, Expire(id), that the
 * host delivers some time later.
 */
module Forms {
  import opened FormValidation

  /** The `type` argument of showMessage, which selects the `form-message--<type>` class. */
  datatype Kind = Success | Error

  /** One `.form-message` element: its identity, its text and its kind. */
  datatype Message = Message(id: nat, text: string, kind: Kind)

  const ContactThanks: string := "Thank you for your message! We'll get back to you soon."
  const NewsletterThanks: string := "Thank you for subscribing to our newsletter!"

  /**
   * The messages attached after showMessage(m): the first attached one (the one
   * `document.querySelector('.form-message')` finds) is removed, then `m` is appended.
   */
  function Shown(attached: seq<Message>, m: Message): seq<Message> {
    (if attached == [] then [] else attached[1..]) + [m]
  }

  /** The messages attached after the removal timer of element `id` fires. */
  function Expired(attached: seq<Message>, id: nat): (r: seq<Message>)
    ensures |r| <= |attached|
    ensures forall m :: m in r <==> m in attached && m.id != id
  {
    if attached == [] then []
    else if attached[0].id == id then Expired(attached[1..], id)
    else [attached[0]] + Expired(attached[1..], id)
  }

  /** Identities grow strictly in document order, so no two attached elements share one. */
  ghost predicate Increasing(attached: seq<Message>) {
    forall a, b | 0 <= a < b < |attached| :: attached[a].id < attached[b].id
  }

  /** Every identity of `attached` was handed out before `next`. */
  ghost predicate IdsBelow(attached: seq<Message>, next: nat) {
    forall k | 0 <= k < |attached| :: attached[k].id < next
  }

  lemma {:induction false} ExpiredIncreasing(attached: seq<Message>, id: nat)
    requires Increasing(attached)
    ensures Increasing(Expired(attached, id))
  {
    if attached != [] {
      var tail := attached[1..];
      ExpiredIncreasing(tail, id);
      if attached[0].id != id {
        var r := Expired(tail, id);
        forall b | 0 <= b < |r| ensures attached[0].id < r[b].id {
          assert r[b] in tail;
        }
      }
    }
  }

  /** A removal timer whose element is no longer attached changes nothing. */
  lemma {:induction false} ExpiredDetached(attached: seq<Message>, id: nat)
    requires forall k | 0 <= k < |attached| :: attached[k].id != id
    ensures Expired(attached, id) == attached
  {
    if attached != [] {
      ExpiredDetached(attached[1..], id);
    }
  }

  /**
   * Single-message invariant: when at most one message was attached, exactly the new
   * one is attached after showMessage.
   */
  lemma ShownSingle(attached: seq<Message>, m: Message)
    requires |attached| <= 1
    ensures Shown(attached, m) == [m]
  {
  }

  /**
   * An expiry removes exactly its own element: every other attached element stays,
   * in order, and nothing else disappears.
   */
  lemma {:induction false} ExpiredOwnOnly(attached: seq<Message>, m: Message)
    requires Increasing(attached) && m in attached
    ensures |Expired(attached, m.id)| == |attached| - 1
    ensures forall x :: x in Expired(attached, m.id) <==> x in attached && x != m
  {
    var k :| 0 <= k < |attached| && attached[k] == m;
    if k == 0 {
      assert forall j | 0 <= j < |attached[1..]| :: attached[1..][j].id != m.id by {
        forall j | 0 <= j < |attached[1..]| ensures attached[1..][j].id != m.id {
          assert attached[1..][j] == attached[j + 1];
        }
      }
      ExpiredDetached(attached[1..], m.id);
    } else {
      assert attached[0].id < m.id;
      ExpiredOwnOnly(attached[1..], m);
    }
  }

  /**
   * Two notifications in quick succession: only the second is visible, and the first
   * one's removal timer, when it fires, leaves the second in place.
   */
  lemma RapidNotifications(attached: seq<Message>, first: Message, second: Message)
    requires |attached| <= 1 && first.id != second.id
    ensures Shown(Shown(attached, first), second) == [second]
    ensures Expired(Shown(Shown(attached, first), second), first.id) == [second]
    ensures Expired(Expired(Shown(Shown(attached, first), second), first.id), second.id) == []
  {
    ExpiredDetached([second], first.id);
  }

  /**
   * The page's FormHandler together with the part of the document it manages: the
   * attached `.form-message` elements and the next identity to hand out.
   */
  class FormHandler {
    var messages: seq<Message>
    var nextId: nat

    ghost predicate Valid()
      reads this
    {
      |messages| <= 1 && Increasing(messages) && IdsBelow(messages, nextId)
    }

    constructor ()
      ensures Valid() && messages == []
    {
      messages := [];
      nextId := 0;
    }

    /**
     * showMessage(text, type): replaces the message on display by a fresh element
     * and returns that element's identity, for the removal timer it schedules.
     */
    method ShowMessage(text: string, kind: Kind) returns (id: nat)
      requires Valid()
      modifies this
      ensures Valid()
      ensures id == old(nextId) && nextId == id + 1
      ensures messages == Shown(old(messages), Message(id, text, kind))
      ensures messages == [Message(id, text, kind)]
    {
      id := nextId;
      var m := Message(id, text, kind);
      ShownSingle(messages, m);
      messages := Shown(messages, m);
      nextId := nextId + 1;
    }

    /**
     * The removal timer of element `id` fires: the element is removed only if it is
     * still attached (`messageElement.parentNode`).
     */
    method Expire(id: nat)
      requires Valid()
      modifies this
      ensures Valid() && nextId == old(nextId)
      ensures messages == Expired(old(messages), id)
      ensures forall m :: m in old(messages) && m.id != id ==> m in messages
    {
      ExpiredIncreasing(messages, id);
      messages := Expired(messages, id);
    }

    /**
     * handleContactForm: on a failed check the first failure is shown as an error;
     * otherwise the thank-you message is shown and the form counts as submitted.
     */
    method HandleContactForm(data: ContactForm) returns (submitted: bool, id: nat)
      requires Valid()
      modifies this
      ensures Valid() && id == old(nextId) && nextId == id + 1
      ensures submitted <==> ValidateContactForm(data) == Passed
      ensures messages == [if submitted then Message(id, ContactThanks, Success)
                           else Message(id, ValidateContactForm(data).reason, Error)]
    {
      match ValidateContactForm(data)
      case Failed(reason) =>
        id := ShowMessage(reason, Error);
        submitted := false;
      case Passed =>
        id := ShowMessage(ContactThanks, Success);
        submitted := true;
    }

    /**
     * handleNewsletterForm: an address the pattern rejects is reported as an error;
     * otherwise the subscription is acknowledged.
     */
    method HandleNewsletterForm(email: string) returns (subscribed: bool, id: nat)
      requires Valid()
      modifies this
      ensures Valid() && id == old(nextId) && nextId == id + 1
      ensures subscribed <==> ValidateEmail(email)
      ensures messages == [if subscribed then Message(id, NewsletterThanks, Success)
                           else Message(id, EmailInvalid, Error)]
    {
      if !ValidateEmail(email) {
        id := ShowMessage(EmailInvalid, Error);
        subscribed := false;
      } else {
        id := ShowMessage(NewsletterThanks, Success);
        subscribed := true;
      }
    }
  }
}

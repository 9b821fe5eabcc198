/**
 * The general notifier (script.js, `showNotification`, and the
 * notification part of the Escape key handler). The page holds at most one
 * `.notification` element: showing a new one first removes the one present.
 * Every removal is scheduled by a timer (300 ms after the close click, after
 * the 5000 ms expiry, or after Escape); the model names each notification by
 * an id, so that a delayed removal finds its own element, and the timer firing
 * is the call to Remove.
 */
module Notifications {
  import opened Wrappers

  /** A notification: its id, the message as put unescaped into its `innerHTML` template, and its kind. */
  datatype Notice = Notice(id: nat, message: string, kind: string)

  /** The icon class for a kind: "success" and "error" have their own, anything else is "info". */
  function Icon(kind: string): (icon: string)
    ensures kind == "success" <==> icon == "fa-check-circle"
    ensures kind == "error" <==> icon == "fa-exclamation-circle"
    ensures kind != "success" && kind != "error" <==> icon == "fa-info-circle"
  {
    if kind == "success" then "fa-check-circle"
    else if kind == "error" then "fa-exclamation-circle"
    else "fa-info-circle"
  }

  /** `live` without the notification whose id is `id`. */
  function Without(live: seq<Notice>, id: nat): (rest: seq<Notice>)
    ensures |rest| <= |live|
    ensures forall n :: n in rest <==> n in live && n.id != id
  {
    if live == [] then []
    else if live[0].id == id then Without(live[1..], id)
    else [live[0]] + Without(live[1..], id)
  }

  /** Removing an id that is not on the page, as `remove()` on a detached element, changes nothing. */
  lemma {:induction false} WithoutAbsent(live: seq<Notice>, id: nat)
    requires forall k :: 0 <= k < |live| ==> live[k].id != id
    ensures Without(live, id) == live
  {
    if live != [] {
      WithoutAbsent(live[1..], id);
    }
  }

  class Notifier {
    /** The `.notification` elements in the document, in document order. */
    var live: seq<Notice>
    /** The id the next notification gets. */
    var nextId: nat

    /** At most one notification is on the page, with an id already handed out. */
    ghost predicate Valid()
      reads this
    {
      |live| <= 1 && forall k :: 0 <= k < |live| ==> live[k].id < nextId
    }

    constructor ()
      ensures Valid() && live == [] && nextId == 0
    {
      live := [];
      nextId := 0;
    }

    /** `showNotification(message, type)`: removes the notification present, if any, and appends the new one. */
    method Show(message: string, kind: string) returns (id: nat)
      requires Valid()
      modifies this
      ensures Valid()
      ensures id == old(nextId) && nextId == old(nextId) + 1
      ensures live == [Notice(id, message, kind)]
    {
      if |live| > 0 {
        live := live[1..];
      }
      id := nextId;
      nextId := nextId + 1;
      live := live + [Notice(id, message, kind)];
    }

    /**
     * The delayed `notification.remove()` of notification `id`: it leaves the
     * page when it is still there; otherwise nothing happens.
     */
    method Remove(id: nat)
      requires Valid()
      modifies this
      ensures Valid()
      ensures live == Without(old(live), id) && nextId == old(nextId)
    {
      var rest := Without(live, id);
      forall k | 0 <= k < |rest|
        ensures rest[k].id < nextId
      {
        assert rest[k] in live;
      }
      live := rest;
    }

    /** The Escape key picks the first notification on the page, if any, for removal. */
    method EscapeTarget() returns (target: Option<nat>)
      requires Valid()
      ensures live == [] <==> target.None?
      ensures target.Some? ==> exists k :: 0 <= k < |live| && live[k].id == target.value
    {
      if |live| > 0 {
        target := Some(live[0].id);
      } else {
        target := None;
      }
    }
  }

  /** Two notifications in a row leave only the second on the page. */
  method ShowTwice(n: Notifier, first: string, second: string, kind: string) returns (id1: nat, id2: nat)
    requires n.Valid()
    modifies n
    ensures n.Valid() && id1 != id2
    ensures n.live == [Notice(id2, second, kind)]
  {
    id1 := n.Show(first, kind);
    id2 := n.Show(second, kind);
  }

  /** The expiry of a notification that was replaced does not remove its successor. */
  method LateRemovalKeepsSuccessor(n: Notifier, first: string, second: string, kind: string)
    requires n.Valid()
    modifies n
    ensures n.Valid() && |n.live| == 1 && n.live[0].message == second
  {
    var id1, id2 := ShowTwice(n, first, second, kind);
    WithoutAbsent(n.live, id1);
    n.Remove(id1);
  }
}

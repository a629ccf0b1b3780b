/**
 The shutdown latch: a flag, and a `Notify` that keeps one permit for a waiter that comes late.
 The functions are the atomic steps; the class performs them in place.
 */
module Lifecycle {

  /** The one registered `notified()` future, if any, and whether a notification was handed to it. */
  datatype Waiter = NoWaiter | Waiting | Notified

  datatype Latch = Latch(shuttingDown: bool, permit: bool, waiter: Waiter) {

    function StoreFlag(): Latch {
      this.(shuttingDown := true)
    }

    /** `notify_one`: hand the notification to the waiter, or keep it as the single permit. */
    function NotifyOne(): Latch {
      if waiter.Waiting? then this.(waiter := Notified) else this.(permit := true)
    }

    /** First poll of `notified()`: take the permit, or register as the waiter. */
    function PollNotified(): (Latch, bool) {
      if permit then (this.(permit := false), true) else (this.(waiter := Waiting), false)
    }

    /** Dropping `notified()`: a notification already handed to it becomes the permit again. */
    function DropWaiter(): Latch {
      this.(waiter := NoWaiter, permit := permit || waiter.Notified?)
    }
  }

  class Lifecycle {
    var shuttingDown: bool
    var permit: bool
    var waiter: Waiter

    ghost function View(): Latch
      reads this
    {
      Latch(shuttingDown, permit, waiter)
    }

    constructor ()
      ensures View() == Latch(false, false, NoWaiter)
    {
      shuttingDown, permit, waiter := false, false, NoWaiter;
    }

    method NotifyOne()
      modifies this
      ensures View() == old(View()).NotifyOne()
    {
      match waiter {
        case Waiting => waiter := Notified;
        case _ => permit := true;
      }
    }

    method MarkShuttingDown()
      modifies this
      ensures View() == old(View()).StoreFlag().NotifyOne()
    {
      shuttingDown := true;
      NotifyOne();
    }

    method IsReady() returns (ready: bool)
      ensures ready == !shuttingDown
    {
      ready := !shuttingDown;
    }

    /** One poll of a fresh `shutdown_requested()` with nothing else running in between. */
    method PollShutdownRequested() returns (done: bool)
      requires waiter.NoWaiter?
      modifies this
      ensures shuttingDown == old(shuttingDown)
      ensures old(shuttingDown) ==> done && View() == old(View())
      ensures !old(shuttingDown) ==> (View(), done) == old(View()).PollNotified()
    {
      var ready := IsReady();
      if !ready {
        return true;
      }
      if permit {
        permit := false;
        return true;
      }
      waiter := Waiting;
      done := false;
    }

    method DropWaiter()
      modifies this
      ensures View() == old(View()).DropWaiter()
    {
      if waiter.Notified? {
        permit := true;
      }
      waiter := NoWaiter;
    }
  }

  /** The latch never loses a notification: notify, then register or drop and poll again, in any order. */
  lemma NotificationSurvives(l: Latch)
    requires l.waiter.NoWaiter?
    ensures l.NotifyOne().PollNotified().1
    ensures !l.permit ==> l.PollNotified().0.NotifyOne().waiter.Notified?
    ensures l.PollNotified().0.NotifyOne().DropWaiter().PollNotified().1
  {
  }

  /** Notifications nobody waited for are kept as one permit, which lets through one poll and then the next one waits. */
  lemma PermitsDoNotPileUp(l: Latch)
    requires !l.waiter.Waiting?
    ensures l.NotifyOne().NotifyOne() == l.NotifyOne() == l.(permit := true)
    ensures var (taken, ready) := l.NotifyOne().PollNotified();
            ready && taken.PollNotified() == (l.(permit := false, waiter := Waiting), false)
  {
  }
}

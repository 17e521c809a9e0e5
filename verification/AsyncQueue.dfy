// The asynchronous queue as an object. Each critical section is a method proved
// against AsyncQueueSpec; the calls made of them are what one caller does alone.

module AsyncQueue {
  import opened Packets
  import Spec = AsyncQueueSpec

  class AsyncQueue<D> {
    var callback: Option<nat>
    var theQueue: seq<D>
    var stopped: bool
    var niceStopped: bool

    /** The handlers posted, in order, each with its result. */
    ghost var posted: seq<(nat, Spec.Result<D>)>

    constructor ()
      ensures View() == Spec.Queue([], None, false, false) && posted == []
    {
      callback, theQueue, stopped, niceStopped, posted := None, [], false, false, [];
    }

    ghost function View(): Spec.Queue<D>
      reads this
    {
      Spec.Queue(theQueue, callback, stopped, niceStopped)
    }

    method PushSection(d: D) returns (accepted: bool)
      modifies this`theQueue
      ensures View() == Spec.Push(old(View()), d) && accepted == Spec.Open(old(View()))
      ensures accepted == (!stopped && !niceStopped) && theQueue == old(theQueue) + if accepted then [d] else []
    {
      if stopped || niceStopped {
        return false;
      }
      theQueue := theQueue + [d];
      return true;
    }

    /** A stopped queue answers at once. */
    method RegisterSection(id: nat) returns (registered: bool)
      modifies this`callback, this`posted
      ensures View() == Spec.Register(old(View()), id) && registered == !stopped
      ensures callback == if stopped then old(callback) else Some(id)
      ensures posted == old(posted) + if registered then [] else [(id, Spec.Stopped)]
    {
      if stopped {
        posted := posted + [(id, Spec.Stopped)];
        return false;
      }
      callback := Some(id);
      return true;
    }

    /** Takes an item and a callback if there are both; the caller posts them. */
    method PopSection() returns (taken: Option<(nat, D)>)
      modifies this`theQueue, this`callback
      ensures View() == Spec.Pop(old(View()))
      ensures taken == if Spec.Pops(old(View())) then Some((old(callback).value, old(theQueue)[0])) else None
      ensures if old(theQueue) != [] && old(callback).Some?
        then taken == Some((old(callback).value, old(theQueue)[0])) && callback.None? && theQueue == old(theQueue)[1..]
        else taken.None? && callback == old(callback) && theQueue == old(theQueue)
    {
      taken := None;
      if |theQueue| > 0 && callback.Some? {
        taken := Some((callback.value, theQueue[0]));
        theQueue := theQueue[1..];
        callback := None;
      }
    }

    method StopSection()
      modifies this`callback, this`posted
      ensures View() == Spec.Stop(old(View()))
      ensures posted == old(posted) + if Spec.Stops(old(View())) then [(old(callback).value, Spec.Stopped)] else []
      ensures if theQueue == [] && niceStopped && old(callback).Some?
        then callback.None? && posted == old(posted) + [(old(callback).value, Spec.Stopped)]
        else callback == old(callback) && posted == old(posted)
    {
      if |theQueue| == 0 && niceStopped && callback.Some? {
        posted := posted + [(callback.value, Spec.Stopped)];
        callback := None;
      }
    }

    /** What tryPop posts when nobody interferes. */
    ghost function Answer(q: Spec.Queue<D>): seq<(nat, Spec.Result<D>)> {
      if Spec.Pops(q) then [(q.callback.value, Spec.Ok(q.items[0]))]
      else if Spec.Stops(q) then [(q.callback.value, Spec.Stopped)]
      else []
    }

    method TryPop()
      modifies this`theQueue, this`callback, this`posted
      ensures View() == if Spec.Pops(old(View())) then Spec.Pop(old(View())) else Spec.Stop(old(View()))
      ensures posted == old(posted) + Answer(old(View()))
    {
      var taken := PopSection();
      match taken
      case Some((id, d)) => posted := posted + [(id, Spec.Ok(d))];
      case None => StopSection();
    }

    /** An item pushed while a callback waits goes to it unless others are before it. */
    method Push(d: D)
      modifies this`theQueue, this`callback, this`posted
      ensures var q := Spec.Push(old(View()), d);
        if Spec.Open(old(View()))
        then View() == Spec.Pop(q) && posted == old(posted) + Answer(q)
        else View() == old(View()) && posted == old(posted)
    {
      var accepted := PushSection(d);
      if accepted {
        TryPop();
      }
    }

    method AsyncPop(id: nat)
      modifies this`theQueue, this`callback, this`posted
      ensures var q := Spec.Register(old(View()), id);
        if stopped then View() == q && posted == old(posted) + [(id, Spec.Stopped)]
        else
          && View() == (if Spec.Pops(q) then Spec.Pop(q) else Spec.Stop(q))
          && posted == old(posted) + Answer(q)
    {
      var registered := RegisterSection(id);
      if registered {
        TryPop();
      }
    }

    method NiceClose()
      modifies this`niceStopped, this`theQueue, this`callback, this`posted
      ensures var q := Spec.NiceClose(old(View()));
        && View() == (if Spec.Pops(q) then Spec.Pop(q) else Spec.Stop(q))
        && posted == old(posted) + Answer(q)
      ensures niceStopped
      ensures old(theQueue) == [] && old(callback).Some? ==>
        callback.None? && posted == old(posted) + [(old(callback).value, Spec.Stopped)]
      ensures old(callback).None? ==> theQueue == old(theQueue) && callback.None? && posted == old(posted)
    {
      niceStopped := true;
      TryPop();
    }

    /** Closing drops the items and answers a waiting callback. */
    method Close()
      modifies this`stopped, this`theQueue, this`callback, this`posted
      ensures View() == Spec.Close(old(View()))
      ensures posted == old(posted) +
        if !old(stopped) && old(callback).Some? then [(old(callback).value, Spec.Stopped)] else []
      ensures stopped && (old(stopped) ==> View() == old(View()))
      ensures !old(stopped) ==> theQueue == [] && callback.None?
    {
      if stopped {
        return;
      }
      stopped := true;
      if callback.Some? {
        posted := posted + [(callback.value, Spec.Stopped)];
        callback := None;
      }
      theQueue := [];
    }
  }
}

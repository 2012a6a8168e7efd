/** What the controllers see of a timer of the event loop: when it expires, which waits are outstanding on it, and
    which completions the loop has queued on the strand but not yet run.  Cancelling or re-arming a timer turns its
    outstanding waits into aborted completions; a wait whose time has come becomes a successful completion that a later
    cancel no longer reaches. */
module SteadyTimers {

  datatype Completion<+H> = Completion(handler: H, aborted: bool)

  datatype Timer<H> = Timer(expiry: int, waits: seq<H>, completions: seq<Completion<H>>) {

    function Finished(aborted: bool): Timer<H> {
      this.(waits := [],
            completions := completions + seq(|waits|, i requires 0 <= i < |waits| => Completion(waits[i], aborted)))
    }

    function Cancel(): Timer<H> {
      Finished(true)
    }

    function ExpiresAfter(now: int, duration: int): Timer<H> {
      Cancel().(expiry := now + duration)
    }

    function AsyncWait(handler: H): Timer<H> {
      this.(waits := waits + [handler])
    }

    /** The event loop notices that the expiry has passed. */
    function Fire(now: int): Timer<H> {
      if expiry <= now then Finished(false) else this
    }

    /** The event loop takes queued completion `i` off the strand in order to run it. */
    function Take(i: nat): Timer<H>
      requires i < |completions|
    {
      this.(completions := completions[..i] + completions[i + 1..])
    }
  }
}

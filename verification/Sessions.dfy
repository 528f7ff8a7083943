/** A live agent session: the abstract core it wraps and the log it keeps. */
module Sessions {
  import opened SessionLog
  import opened Transfer

  /** The agent core is not part of this model beyond what the server asks of it:
      whether a turn is running, whether it accepts a new session id, its FIFO
      queue, and being closed. */
  class Core {
    var running: bool
    var refusesID: bool
    var sessionID: string
    var queue: seq<string>
    var closes: nat

    constructor (id: string)
      ensures sessionID == id && queue == [] && closes == 0 && !running
    {
      running, refusesID, sessionID, queue, closes := false, false, id, [], 0;
    }

    method SetSessionID(id: string) returns (ok: bool)
      modifies `sessionID
      ensures ok == !refusesID
      ensures sessionID == if ok then id else old(sessionID)
    {
      ok := !refusesID;
      if ok { sessionID := id; }
    }

    method Close()
      modifies `closes
      ensures closes == old(closes) + 1
    {
      closes := closes + 1;
    }

    method Queue(item: string)
      modifies `queue
      ensures queue == old(queue) + [item]
    {
      queue := queue + [item];
    }

    method PopQueue() returns (item: string, ok: bool)
      modifies `queue
      ensures ok == (old(queue) != [])
      ensures ok ==> [item] + queue == old(queue)
      ensures !ok ==> item == "" && queue == []
    {
      ok := queue != [];
      if ok {
        item, queue := queue[0], queue[1..];
      } else {
        item := "";
      }
    }
  }

  class Session {
    const core: Core
    var id: string
    var cancels: nat
    var log: string
    var logVers: nat
    var chatOffset: nat

    constructor (id: string, core: Core)
      ensures this.id == id && this.core == core && cancels == 0
      ensures LogState() == Log("", 0, 0)
    {
      this.id, this.core, cancels := id, core, 0;
      log, logVers, chatOffset := "", 0, 0;
    }

    function LogState(): Log
      reads this
    {
      Log(log, logVers, chatOffset)
    }

    method Cancel()
      modifies `cancels
      ensures cancels == old(cancels) + 1
    {
      cancels := cancels + 1;
    }

    method AppendLog(data: string)
      modifies `log, `logVers
      ensures LogState() == Apply(old(LogState()), Append(data))
    {
      if |data| == 0 {
        return;
      }
      log := log + data;
      logVers := (logVers + 1) % UINT32;
    }

    method EnsureTrailingNewline()
      modifies `log, `logVers
      ensures LogState() == Apply(old(LogState()), EnsureNewline)
    {
      if |log| > 0 && log[|log| - 1] != '\n' {
        log := log + "\n";
        logVers := (logVers + 1) % UINT32;
      }
    }
  }
}

/**
 * The connection lifecycle of `NotifyClient` in packages/protocol/src/client.ts.
 *
 * Each method is one turn of the event loop: a public call, a frame or an event from a
 * socket, a timer that fires, or the rest of a handshake once its signature is ready, which
 * may be long after its socket has been replaced. A `Timer` and `Sockets` also count what
 * the runtime still has pending that the client no longer has a handle on, so `Valid` can
 * say that there is no such thing, and that the client never waits for nothing.
 */
module Client {
  import opened Basics

  datatype Status = Idle | Connecting | Reconnecting | Pairing | Unpaired | Ready | Revoked | Failed

  /** What can have told the client, since it last opened a socket, that retrying is pointless. */
  datatype Latch = NotPaired | ThrownOut | PairingTimedOut

  /** A timer handle: whether its timer is pending, and how many earlier ones, overwritten uncleared, still are. */
  datatype Timer = Timer(armed: bool, strays: nat) {
    /** `clearTimeout`, and the handle forgotten. */
    function Cleared(): Timer { Timer(false, strays) }
    /** The handle overwritten with a new timer. */
    function Set(): Timer { Timer(true, strays + if armed then 1 else 0) }
    /** A one-shot timer runs. */
    function Fired(): Timer { Timer(false, strays) }
  }

  /** The socket held, whether its frames still reach a handler, and how many others' do. */
  datatype Sockets = Sockets(held: Option<nat>, open: bool, strays: nat) {
    /** `abandon`: handlers off, then closed. */
    function Abandoned(): Sockets { Sockets(None, false, strays) }
    /** The reference overwritten with a new socket. */
    function Replaced(s: nat): Sockets { Sockets(Some(s), true, strays + if held.Some? && open then 1 else 0) }
    /** `close()` with the handlers on: only `onclose` can still come. */
    function Closing(): Sockets { Sockets(held, false, strays) }
    /** The reference dropped. */
    function Dropped(): Sockets { Sockets(None, false, strays + if held.Some? && open then 1 else 0) }

    predicate Tracked() { strays == 0 && (open ==> held.Some?) }
  }

  const DEFAULT_KEEPALIVE_MS: int := 30000
  const LONGEST_BACKOFF_MS: nat := 30000

  /** More than two and a half keepalives. */
  predicate TooQuiet(silentFor: int, keepaliveMs: int) {
    2 * silentFor > 5 * keepaliveMs
  }

  /** The keepalive the hub asks for, floored; the default if it asks for none. */
  function Interval(asks: Option<int>): (ms: int)
    ensures ms >= 1000
  {
    if asks.Some? && asks.value >= 1000 then asks.value else DEFAULT_KEEPALIVE_MS
  }

  function NextBackoff(backoff: nat): nat {
    if backoff == 0 then 1000 else if 2 * backoff < LONGEST_BACKOFF_MS then 2 * backoff else LONGEST_BACKOFF_MS
  }

  /** What a retry after this many failures in a row waits at most: a second, doubled for each earlier one, up to 30. */
  function LongestWait(failures: nat): nat
    requires failures >= 1
  {
    var ms := 1000 * Pow2(failures - 1);
    if ms < 30000 then ms else 30000
  }

  /** In seconds 1, 2, 4, 8, 16, and from the sixth on 30. */
  lemma {:induction false} WaitsInSeconds(failures: nat)
    requires failures >= 1
    ensures LongestWait(failures) == match failures
      case 1 => 1000 case 2 => 2000 case 3 => 4000 case 4 => 8000 case 5 => 16000 case _ => 30000
    decreases failures
  {
    if failures > 6 {
      WaitsInSeconds(failures - 1);
    } else {
      assert Pow2(2) == 4 && Pow2(4) == 4 * Pow2(2) && Pow2(5) == 32;
    }
  }

  /** The backoff that this many failures in a row leave. */
  ghost predicate BackedOff(backoff: nat, failures: nat) {
    backoff == if failures == 0 then 0 else LongestWait(failures)
  }

  /** Doubling up to a limit is the limit of doubling. */
  lemma BackoffDoubles(backoff: nat, failures: nat)
    requires BackedOff(backoff, failures)
    ensures BackedOff(NextBackoff(backoff), failures + 1) && 1000 <= NextBackoff(backoff) <= LONGEST_BACKOFF_MS
  {
    if failures > 0 {
      assert Pow2(failures) == 2 * Pow2(failures - 1);
    } else {
      assert Pow2(0) == 1;
    }
  }

  /** The backoff with jitter: at least half of it, never more than it. */
  function Delay(backoff: nat, jitter: real): (d: real)
    requires 0.0 <= jitter < 1.0
    ensures backoff as real / 2.0 <= d <= backoff as real
  {
    var b := backoff as real;
    Share(b, jitter);
    b * (0.5 + jitter / 2.0)
  }

  lemma Share(b: real, jitter: real)
    requires b >= 0.0 && 0.0 <= jitter < 1.0
    ensures b / 2.0 <= b * (0.5 + jitter / 2.0) <= b
  {
    assert b * (0.5 + jitter / 2.0) == b / 2.0 + b * jitter / 2.0;
    assert 0.0 <= b * jitter <= b;
  }

  class NotifyClient {
    const autoReconnect: bool
    var sockets: Sockets
    var status: Status
    var closedByUs: bool
    var rejected: bool
    var backoff: nat
    var reconnect: Timer
    var connectDeadline: Timer
    /** The socket the connect deadline was armed for. */
    var deadlineFor: nat
    var keepalive: Timer
    var keepaliveMs: int
    var lastHeardAt: int

    var pendingCode: Option<string>
    var hasKeys: bool
    var hasDeviceId: bool
    var pairedWith: Option<string>
    var hello: Option<string>
    /** The replay cursor: the highest number acknowledged. */
    var ackedSeq: int
    var freshlyPaired: bool

    /** Signatures for a pair frame still being made. */
    var signing: nat
    var nextSocket: nat
    ghost var everOpened: bool
    ghost var latches: set<Latch>
    /** Connections lost in a row, each of them with a retry to come, and how long the last retry waits. */
    ghost var failures: nat
    ghost var wait: real
    /** The socket on which the device was last enrolled. */
    ghost var enrolledOn: Option<nat>

    // ---- the invariant ---------------------------------------------------------

    /** No socket and no timer is alive behind the client's back. */
    ghost predicate NothingLost()
      reads this
    {
      sockets.Tracked() && reconnect.strays == 0 && connectDeadline.strays == 0 && keepalive.strays == 0
    }

    predicate Guarded()
      reads this
    {
      keepalive.armed || (connectDeadline.armed && sockets.held == Some(deadlineFor))
    }

    /** With a socket something watches it; without one a retry is due, or somebody said why not. */
    ghost predicate NeverStuck()
      reads this
    {
      if sockets.held.Some? then
        && Guarded()
        && !reconnect.armed
        && !closedByUs
        && (status == Ready ==> keepalive.armed)
      else if reconnect.armed then
        !closedByUs && !rejected && autoReconnect
      else
        closedByUs || rejected || !autoReconnect || latches != {} || !everOpened
    }

    ghost predicate Valid()
      reads this
    {
      && NothingLost() && NeverStuck()
      && (keepalive.armed && sockets.held.None? ==> closedByUs)
      && (status == Unpaired ==> NotPaired in latches)
      && (status == Revoked ==> ThrownOut in latches)
      && (sockets.held.Some? ==> everOpened)
      && Paced() && keepaliveMs >= 1000
      && (freshlyPaired ==> enrolledOn.Some?)
    }

    /** The backoff is what the failures so far make it, and a retry that is due waits at least half of it. */
    ghost predicate Paced()
      reads `backoff, `failures, `reconnect, `wait
    {
      && BackedOff(backoff, failures)
      && (reconnect.armed ==> failures >= 1 && backoff as real / 2.0 <= wait <= backoff as real)
    }

    /** Nothing the client does by itself will connect it again. */
    predicate NoRetryComes()
      reads this
    {
      rejected || (sockets.held.None? && !reconnect.armed)
    }

    /** A client that will not try again has a status that says why; idle is for one that was never asked to stay. */
    ghost predicate Legible()
      reads this
    {
      NoRetryComes() ==> status in {Unpaired, Revoked, Failed} || (status == Idle && MayIdle())
    }

    ghost predicate MayIdle()
      reads this
    {
      closedByUs || !autoReconnect || !everOpened
    }

    constructor (autoReconnect: bool)
      ensures Valid() && Legible() && this.autoReconnect == autoReconnect && sockets.held == None && !everOpened
      ensures ackedSeq == 0 && !freshlyPaired
      ensures pendingCode == None && !hasKeys && !hasDeviceId && pairedWith == None && signing == 0
    {
      this.autoReconnect := autoReconnect;
      sockets := Sockets(None, false, 0);
      status := Idle;
      closedByUs := false;
      rejected := false;
      backoff := 0;
      reconnect, connectDeadline, keepalive := Timer(false, 0), Timer(false, 0), Timer(false, 0);
      deadlineFor := 0;
      keepaliveMs := DEFAULT_KEEPALIVE_MS;
      lastHeardAt := 0;
      pendingCode := None;
      hasKeys := false;
      hasDeviceId := false;
      pairedWith := None;
      hello := None;
      signing := 0;
      nextSocket := 0;
      everOpened := false;
      latches := {};
      ackedSeq := 0;
      freshlyPaired := false;
      enrolledOn := None;
      failures, wait := 0, 0.0;
    }

    // ---- opening -----------------------------------------------------------------

    /** What every way of opening leaves: one new socket under a deadline, and no other timer. */
    ghost predicate JustOpened()
      reads this
    {
      && nextSocket > 0 && sockets == Sockets(Some(nextSocket - 1), true, 0)
      && connectDeadline == Timer(true, 0) && deadlineFor == nextSocket - 1
      && reconnect == Timer(false, 0) && keepalive == Timer(false, 0)
      && status == (if backoff > 0 then Reconnecting else Connecting) && !rejected && !closedByUs && latches == {}
      && everOpened
    }

    lemma OpenedIsValid()
      requires JustOpened() && BackedOff(backoff, failures) && keepaliveMs >= 1000
      requires freshlyPaired ==> enrolledOn.Some?
      ensures Valid() && Legible()
    {
    }

    /** The first half of `open`: nothing of the previous connection is left. */
    method DropPrevious()
      requires NothingLost()
      modifies `reconnect, `sockets, `keepalive, `rejected, `status
      ensures sockets == Sockets(None, false, 0) && !rejected
      ensures reconnect == Timer(false, 0) && keepalive == Timer(false, 0)
      ensures status == if backoff > 0 then Reconnecting else Connecting
    {
      reconnect := reconnect.Cleared();
      sockets := if sockets.held.Some? then sockets.Abandoned() else sockets;
      keepalive := keepalive.Cleared();
      rejected := false;
      status := if backoff > 0 then Reconnecting else Connecting;
    }

    /** `armConnectDeadline` */
    method ArmConnectDeadline(s: nat)
      modifies `connectDeadline, `deadlineFor
      ensures connectDeadline == Timer(true, old(connectDeadline.strays)) && deadlineFor == s
    {
      connectDeadline := connectDeadline.Cleared().Set();
      deadlineFor := s;
    }

    /** `open` */
    method OpenSocket()
      requires NothingLost() && !closedByUs && BackedOff(backoff, failures) && keepaliveMs >= 1000
      requires freshlyPaired ==> enrolledOn.Some?
      modifies `reconnect, `sockets, `keepalive, `rejected, `status
      modifies `connectDeadline, `deadlineFor, `nextSocket, `everOpened, `latches
      ensures Valid() && Legible() && JustOpened() && nextSocket == old(nextSocket) + 1
    {
      DropPrevious();
      sockets := sockets.Replaced(nextSocket);
      ArmConnectDeadline(nextSocket);
      nextSocket := nextSocket + 1;
      everOpened := true;
      latches := {};
      OpenedIsValid();
    }

    /** `connect`, with what `loadCredentials` found. */
    method Connect(stored: bool, storedHub: Option<string>, storedSeq: int)
      requires Valid()
      modifies `reconnect, `sockets, `keepalive, `rejected, `status
      modifies `connectDeadline, `deadlineFor, `nextSocket, `everOpened, `latches
      modifies `closedByUs, `hasDeviceId, `hasKeys, `pairedWith, `ackedSeq
      ensures Valid() && Legible() && JustOpened()
      ensures if stored then hasDeviceId && hasKeys && pairedWith == storedHub && ackedSeq == storedSeq
        else (hasDeviceId, hasKeys, pairedWith, ackedSeq) == old((hasDeviceId, hasKeys, pairedWith, ackedSeq))
    {
      closedByUs := false;
      if stored {
        hasDeviceId := true;
        hasKeys := true;
        ackedSeq := storedSeq;
        pairedWith := storedHub;
      }
      OpenSocket();
    }

    /** `pair`, with the code already normalised; an empty one is no code. */
    method Pair(code: string)
      requires Valid()
      modifies `reconnect, `sockets, `keepalive, `rejected, `status
      modifies `connectDeadline, `deadlineFor, `nextSocket, `everOpened, `latches
      modifies `closedByUs, `pendingCode, `hasKeys
      ensures Valid() && Legible() && JustOpened()
      ensures hasKeys && pendingCode == if code == "" then None else Some(code)
    {
      closedByUs := false;
      pendingCode := if code == "" then None else Some(code);
      hasKeys := true;
      OpenSocket();
    }

    method Disconnect()
      requires Valid()
      modifies `closedByUs, `keepalive, `reconnect, `connectDeadline, `sockets, `status
      ensures Valid() && Legible() && sockets == Sockets(None, false, 0) && status == Idle && closedByUs
      ensures !reconnect.armed && !keepalive.armed && !connectDeadline.armed
    {
      closedByUs := true;
      keepalive := keepalive.Cleared();
      reconnect := reconnect.Cleared();
      connectDeadline := connectDeadline.Cleared();
      sockets := sockets.Abandoned();
      status := Idle;
    }

    // ---- retrying ----------------------------------------------------------------

    /** `scheduleReconnect`; `jitter` is the random number, in [0, 1). */
    method ScheduleReconnect(jitter: real) returns (delay: real)
      requires 0.0 <= jitter < 1.0
      requires BackedOff(backoff, failures)
      modifies `status, `backoff, `reconnect, `failures, `wait
      ensures status == Reconnecting && reconnect == old(reconnect).Set()
      ensures failures == old(failures) + 1 && backoff == LongestWait(failures) == NextBackoff(old(backoff))
      ensures wait == delay && backoff as real / 2.0 <= delay <= backoff as real
    {
      BackoffDoubles(backoff, failures);
      status := Reconnecting;
      backoff := NextBackoff(backoff);
      delay := Delay(backoff, jitter);
      reconnect := reconnect.Set();
      failures, wait := failures + 1, delay;
    }

    /** What `onclose` and the connect deadline do once the socket is gone. */
    method RetryUnlessPointless(jitter: real)
      requires NothingLost() && sockets.held == None && !reconnect.armed && !keepalive.armed
      requires !closedByUs && BackedOff(backoff, failures) && keepaliveMs >= 1000
      requires (status == Unpaired ==> NotPaired in latches) && (status == Revoked ==> ThrownOut in latches)
      requires freshlyPaired ==> enrolledOn.Some?
      requires 0.0 <= jitter < 1.0
      modifies `status, `backoff, `reconnect, `failures, `wait
      ensures Valid() && failures == old(failures) + if reconnect.armed then 1 else 0
      ensures reconnect.armed <==> old(status) != Unpaired && !rejected && autoReconnect
      ensures reconnect.armed ==> backoff == NextBackoff(old(backoff))
      ensures status == if old(status) == Unpaired || rejected then old(status)
        else if autoReconnect then Reconnecting else Idle
      ensures old(Legible()) || !rejected ==> Legible()
    {
      if status == Unpaired { return; }
      if rejected { return; }
      if !autoReconnect {
        status := Idle;
        return;
      }
      var _ := ScheduleReconnect(jitter);
    }

    method ReconnectNow(now: int)
      requires Valid()
      modifies `reconnect, `sockets, `keepalive, `rejected, `status
      modifies `connectDeadline, `deadlineFor, `nextSocket, `everOpened, `latches
      modifies `backoff, `lastHeardAt, `failures
      ensures Valid()
      ensures !old(closedByUs) ==>
        JustOpened() && nextSocket == old(nextSocket) + 1 && backoff == 0 && lastHeardAt == now
      ensures old(closedByUs) ==>
        sockets == old(sockets) && failures == old(failures) && backoff == old(backoff) && status == old(status)
      ensures old(Legible()) ==> Legible()
    {
      if closedByUs { return; }
      backoff, failures := 0, 0;
      lastHeardAt := now;
      OpenSocket();
    }

    /** `resume`: the app is back in the foreground. */
    method Resume(now: int) returns (sync: bool)
      requires Valid()
      modifies `reconnect, `sockets, `keepalive, `rejected, `status
      modifies `connectDeadline, `deadlineFor, `nextSocket, `everOpened, `latches
      modifies `backoff, `lastHeardAt, `failures
      ensures Valid()
      ensures sync <==>
        old(!closedByUs && status == Ready) && (now - old(lastHeardAt)) as real <= 2.5 * keepaliveMs as real
      ensures sync || old(closedByUs || status in {Unpaired, Revoked, Connecting, Pairing}) ==>
        sockets == old(sockets) && nextSocket == old(nextSocket) && status == old(status) && backoff == old(backoff)
      ensures !sync && !old(closedByUs || status in {Unpaired, Revoked, Connecting, Pairing}) ==>
        JustOpened() && nextSocket == old(nextSocket) + 1 && backoff == 0
      ensures old(Legible()) ==> Legible()
    {
      sync := false;
      if closedByUs { return; }
      if status == Unpaired || status == Revoked { return; }
      if status == Connecting || status == Pairing { return; }
      if status != Ready {
        ReconnectNow(now);
        return;
      }
      if TooQuiet(now - lastHeardAt, keepaliveMs) {
        ReconnectNow(now);
        return;
      }
      sync := true;
    }

    // ---- timers that fire ----------------------------------------------------------

    method ReconnectFires()
      requires Valid() && reconnect.armed
      modifies `reconnect, `sockets, `keepalive, `rejected, `status
      modifies `connectDeadline, `deadlineFor, `nextSocket, `everOpened, `latches
      ensures Valid() && Legible() && JustOpened() && nextSocket == old(nextSocket) + 1
    {
      reconnect := reconnect.Fired();
      OpenSocket();
    }

    /** The socket the deadline was armed for has not become ready. */
    predicate StillTrying()
      reads this
    {
      sockets.held == Some(deadlineFor) && status != Ready
    }

    /** The deadline acts only on the socket it was armed for, and only while that is still trying. */
    method DeadlineFires(jitter: real)
      requires Valid() && connectDeadline.armed && 0.0 <= jitter < 1.0
      modifies `connectDeadline, `keepalive, `sockets, `pendingCode, `status, `latches, `backoff, `reconnect, `failures,
        `wait
      ensures Valid()
      ensures !connectDeadline.armed
      ensures old(StillTrying()) ==> sockets == Sockets(None, false, 0)
      ensures !old(StillTrying()) ==> sockets == old(sockets) && status == old(status) && reconnect == old(reconnect)
      ensures old(StillTrying() && status == Pairing) ==>
        pendingCode == None && !reconnect.armed && status == Failed && PairingTimedOut in latches
      ensures old(StillTrying() && status != Pairing) ==> pendingCode == old(pendingCode) && latches == old(latches)
      ensures old(StillTrying() && status !in {Pairing, Unpaired} && !rejected && autoReconnect) ==>
        reconnect.armed && failures == old(failures) + 1 && backoff == NextBackoff(old(backoff))
      ensures old(StillTrying() && status != Pairing && (status == Unpaired || rejected || !autoReconnect)) ==>
        !reconnect.armed && status == if old(status == Unpaired || rejected) then old(status) else Idle
      ensures old(Legible()) ==> Legible()
    {
      connectDeadline := connectDeadline.Fired();
      if sockets.held != Some(deadlineFor) || closedByUs { return; }
      if status == Ready { return; }
      LetGo();
      if status == Pairing {
        PairingTimesOut();
        return;
      }
      RetryUnlessPointless(jitter);
    }

    method LetGo()
      modifies `keepalive, `sockets
      ensures keepalive == old(keepalive).Cleared() && sockets == old(sockets).Abandoned()
    {
      keepalive := keepalive.Cleared();
      sockets := sockets.Abandoned();
    }

    method PairingTimesOut()
      requires NothingLost() && sockets.held == None && !reconnect.armed && !keepalive.armed
      requires BackedOff(backoff, failures) && keepaliveMs >= 1000 && (freshlyPaired ==> enrolledOn.Some?)
      modifies `pendingCode, `status, `latches
      ensures Valid() && Legible() && pendingCode == None && status == Failed && PairingTimedOut in latches
    {
      pendingCode := None;
      status := Failed;
      latches := latches + {PairingTimedOut};
    }

    /** A socket silent for two and a half keepalives is replaced, whatever it claims. */
    method KeepaliveTick(now: int) returns (ping: bool)
      requires Valid() && keepalive.armed
      modifies `reconnect, `sockets, `keepalive, `rejected, `status
      modifies `connectDeadline, `deadlineFor, `nextSocket, `everOpened, `latches
      modifies `backoff, `lastHeardAt, `failures
      ensures Valid()
      ensures (now - old(lastHeardAt)) as real > 2.5 * keepaliveMs as real && !old(closedByUs) ==>
        JustOpened() && nextSocket == old(nextSocket) + 1 && backoff == 0
      ensures (now - old(lastHeardAt)) as real <= 2.5 * keepaliveMs as real ==> sockets == old(sockets)
      ensures ping <==> (now - old(lastHeardAt)) as real <= 2.5 * keepaliveMs as real
      ensures old(Legible()) ==> Legible()
    {
      if TooQuiet(now - lastHeardAt, keepaliveMs) {
        ReconnectNow(now);
        return false;
      }
      ping := true;
    }

    // ---- what a socket says ----------------------------------------------------------

    /** Frames reach a handler only from the socket held, while it is open. */
    ghost predicate Speaks(s: nat)
      reads this
    {
      sockets == Sockets(Some(s), true, 0)
    }

    /** A hub that is not the one this device paired with gets nothing. */
    method LeaveWrongHub()
      requires Valid() && sockets.held.Some?
      modifies `status, `closedByUs, `sockets
      ensures Valid() && Legible() && closedByUs && status == Failed && sockets == Sockets(None, false, 0)
    {
      status := Failed;
      closedByUs := true;
      sockets := sockets.Closing();
      sockets := sockets.Dropped();
    }

    /** The first frame on every socket. `asks` is the interval it asks for, if it does. */
    method Hello(s: nat, hub: string, asks: Option<int>, now: int) returns (signs: bool)
      requires Valid() && Speaks(s)
      modifies `lastHeardAt, `status, `closedByUs, `sockets, `hello, `keepaliveMs, `latches, `signing
      ensures Valid() && lastHeardAt == now
      ensures old(pairedWith.Some? && pairedWith.value != hub) ==>
        && closedByUs && sockets.held == None && !signs && status == Failed
        && hello == old(hello) && keepaliveMs == old(keepaliveMs)
      ensures pairedWith.None? || pairedWith.value == hub ==>
        keepaliveMs == if asks.Some? && asks.value >= 1000 then asks.value else 30000
      ensures pairedWith.None? || pairedWith.value == hub ==>
        && (signs <==> (pendingCode.Some? && hasKeys) || (hasDeviceId && hasKeys))
        && signing == old(signing) + (if pendingCode.Some? && hasKeys then 1 else 0)
        && closedByUs == old(closedByUs) && hello == Some(hub)
        && (signs ==> sockets == old(sockets) && status == old(status))
        && (!signs ==> status == Unpaired && sockets == old(sockets).Closing())
      ensures old(Legible()) ==> Legible()
    {
      lastHeardAt := now;
      signs := false;
      if pairedWith.Some? && hub != pairedWith.value {
        LeaveWrongHub();
        return;
      }
      signs := Greeted(hub, asks);
    }

    /** The hub is the one this device paired with, or the first it meets. */
    method Greeted(hub: string, asks: Option<int>) returns (signs: bool)
      requires Valid() && sockets.held.Some? && sockets.open
      modifies `status, `sockets, `hello, `keepaliveMs, `latches, `signing
      ensures Valid() && hello == Some(hub) && keepaliveMs == Interval(asks)
      ensures signing == old(signing) + (if pendingCode.Some? && hasKeys then 1 else 0)
      ensures signs <==> (pendingCode.Some? && hasKeys) || (hasDeviceId && hasKeys)
      ensures signs ==> sockets == old(sockets) && status == old(status)
      ensures !signs ==> status == Unpaired && sockets == old(sockets).Closing()
      ensures old(Legible()) ==> Legible()
    {
      hello := Some(hub);
      keepaliveMs := Interval(asks);
      signs := Handshake();
    }

    /** `handshake`, up to its first `await`. */
    method Handshake() returns (signs: bool)
      requires Valid() && sockets.held.Some? && sockets.open
      modifies `status, `latches, `sockets, `signing
      ensures Valid() && signing == old(signing) + (if pendingCode.Some? && hasKeys then 1 else 0)
      ensures signs <==> (pendingCode.Some? && hasKeys) || (hasDeviceId && hasKeys)
      ensures signs ==> sockets == old(sockets) && status == old(status)
      ensures !signs ==> status == Unpaired && sockets == old(sockets).Closing()
      ensures old(Legible()) ==> Legible()
    {
      if pendingCode.Some? && hasKeys {
        signing := signing + 1;
        return true;
      }
      if !hasDeviceId || !hasKeys {
        status := Unpaired;
        latches := latches + {NotPaired};
        sockets := sockets.Closing();
        return false;
      }
      signs := true;
    }

    /** The rest of a handshake that pairs: it may come after its socket, or any socket, is gone. */
    method SignedForPairing()
      requires Valid() && signing > 0
      modifies `status, `signing
      ensures Valid() && status == Pairing && signing == old(signing) - 1
      ensures Legible() <==> old(!rejected && (sockets.held.Some? || reconnect.armed))
    {
      signing := signing - 1;
      status := Pairing;
    }

    method Paired(s: nat, now: int)
      requires Valid() && Speaks(s)
      modifies `lastHeardAt, `pairedWith, `hasDeviceId, `pendingCode, `freshlyPaired, `enrolledOn
      ensures Valid() && lastHeardAt == now && pendingCode == None && hasDeviceId
      ensures pairedWith == if hello.Some? then hello else old(pairedWith)
      ensures freshlyPaired && enrolledOn == Some(s)
      ensures old(Legible()) ==> Legible()
    {
      lastHeardAt := now;
      pairedWith := if hello.Some? then hello else pairedWith;
      Enrol(s);
    }

    /** The device has an id from now on, and its code is spent. */
    method Enrol(s: nat)
      modifies `hasDeviceId, `pendingCode, `freshlyPaired, `enrolledOn
      ensures hasDeviceId && pendingCode == None && freshlyPaired && enrolledOn == Some(s)
    {
      freshlyPaired := true;
      enrolledOn := Some(s);
      hasDeviceId := true;
      pendingCode := None;
    }

    /** `head` is the hub's newest number, if the frame names one. */
    method ReadyFrame(s: nat, head: Option<int>, now: int)
      requires Valid() && Speaks(s)
      modifies `lastHeardAt, `connectDeadline, `backoff, `keepalive, `status, `ackedSeq, `freshlyPaired, `failures
      ensures Valid() && lastHeardAt == now && status == Ready && backoff == 0 && failures == 0
      ensures keepalive.armed && !connectDeadline.armed
      ensures ackedSeq >= old(ackedSeq) && !freshlyPaired
      ensures ackedSeq > old(ackedSeq) <==> old(freshlyPaired) && head.Some? && head.value > old(ackedSeq)
      ensures ackedSeq > old(ackedSeq) ==> head == Some(ackedSeq)
      ensures Legible() <==> !rejected
    {
      lastHeardAt := now;
      connectDeadline := connectDeadline.Cleared();
      backoff, failures := 0, 0;
      if freshlyPaired && head.Some? && head.value > ackedSeq {
        ackedSeq := head.value;
      }
      freshlyPaired := false;
      StartKeepalive(now);
      status := Ready;
    }

    method StartKeepalive(now: int)
      modifies `keepalive, `lastHeardAt
      ensures keepalive == Timer(true, old(keepalive.strays))
      ensures lastHeardAt == if old(lastHeardAt) == 0 then now else old(lastHeardAt)
    {
      keepalive := keepalive.Cleared();
      if lastHeardAt == 0 { lastHeardAt := now; }
      keepalive := keepalive.Set();
    }

    /** `pair_failed` and `auth_failed` stop all retries until somebody asks again. */
    method ErrorFrame(s: nat, refused: bool, now: int)
      requires Valid() && Speaks(s)
      modifies `lastHeardAt, `rejected, `pendingCode, `status
      ensures Valid() && lastHeardAt == now
      ensures refused ==> rejected && pendingCode == None && status == Failed
      ensures !refused ==> rejected == old(rejected) && pendingCode == old(pendingCode) && status == old(status)
      ensures old(Legible()) ==> Legible()
    {
      lastHeardAt := now;
      if refused {
        rejected := true;
        pendingCode := None;
        status := Failed;
      }
    }

    method RevokedFrame(s: nat, now: int)
      requires Valid() && Speaks(s)
      modifies `lastHeardAt, `status, `latches
      ensures Valid() && lastHeardAt == now && status == Revoked && latches == old(latches) + {ThrownOut}
      ensures Legible()
    {
      lastHeardAt := now;
      status := Revoked;
      latches := latches + {ThrownOut};
    }

    /** Every other frame is traffic. */
    method OtherFrame(s: nat, now: int)
      requires Valid() && Speaks(s)
      modifies `lastHeardAt
      ensures Valid() && lastHeardAt == now
      ensures old(Legible()) ==> Legible()
    {
      lastHeardAt := now;
    }

    /** `ack`: the cursor keeps the highest number acknowledged. */
    method Ack(k: Option<int>)
      requires Valid()
      modifies `ackedSeq
      ensures Valid() && ackedSeq == if k.Some? && k.value > old(ackedSeq) then k.value else old(ackedSeq)
      ensures old(Legible()) ==> Legible()
    {
      if k.Some? && k.value > ackedSeq {
        ackedSeq := k.value;
      }
    }

    method OnError(s: nat)
      requires Valid() && sockets.held == Some(s)
      modifies `status
      ensures Valid() && Legible() && status == Failed
    {
      status := Failed;
    }

    /** `onclose`: of the socket held, or of one already replaced or dropped. */
    method OnClose(s: nat, jitter: real)
      requires Valid() && 0.0 <= jitter < 1.0
      modifies `sockets, `keepalive, `status, `backoff, `reconnect, `failures, `wait
      ensures Valid()
      ensures old(sockets.held) != Some(s) ==> sockets == old(sockets) && reconnect == old(reconnect)
      ensures old(sockets.held) == Some(s) ==> sockets == Sockets(None, false, 0) && !keepalive.armed
      ensures old(sockets.held) == Some(s) ==>
        (reconnect.armed <==> old(status !in {Revoked, Unpaired} && !rejected) && autoReconnect)
      ensures status == if old(sockets.held != Some(s) || status in {Revoked, Unpaired} || rejected) then old(status)
        else if autoReconnect then Reconnecting else Idle
      ensures old(sockets.held) == Some(s) && reconnect.armed ==>
        failures == old(failures) + 1 && backoff == NextBackoff(old(backoff))
      ensures old(Legible()) ==> Legible()
    {
      if sockets.held != Some(s) { return; }
      sockets := sockets.Closing();
      sockets := sockets.Dropped();
      keepalive := keepalive.Cleared();
      if closedByUs || status == Revoked { return; }
      RetryUnlessPointless(jitter);
    }
  }

  /**
   * In every reachable state: no socket and no timer is alive that the client does not hold; a
   * socket held is watched by its deadline or by the keepalive, and by the latter once ready;
   * without one exactly one retry is due, unless the client was closed or told why not to.
   */
  lemma NeverSilentlyStuck(c: NotifyClient)
    requires c.Valid() && c.everOpened && c.autoReconnect
    ensures c.sockets.strays == 0 && c.reconnect.strays == 0 && c.connectDeadline.strays == 0 && c.keepalive.strays == 0
    ensures c.sockets.held.Some? ==> c.Guarded() && !c.reconnect.armed && (c.status == Ready ==> c.keepalive.armed)
    ensures c.sockets.held.None? && !c.reconnect.armed ==> c.closedByUs || c.rejected || c.latches != {}
    ensures c.sockets.held.None? && c.reconnect.armed ==> !c.closedByUs && !c.rejected
  {
  }

  /**
   * A retry that is due after k lost connections in a row, with no `ready` and no fresh start
   * between them, waits at most min(2^(k - 1), 30) seconds, and at least half of that.
   */
  lemma RetriesBackOff(c: NotifyClient)
    requires c.Valid() && c.reconnect.armed
    ensures c.failures >= 1
    ensures LongestWait(c.failures) as real / 2.0 <= c.wait <= LongestWait(c.failures) as real
  {
    assert c.Paced();
  }

  /**
   * As long as the status is legible, a client that stopped for good shows the reason. Every
   * event keeps it legible except a pairing signature that is ready when no retry is to come,
   * and a `ready` after a refusal on the same socket.
   */
  lemma StoppedSaysWhy(c: NotifyClient)
    requires c.Valid() && c.Legible() && c.everOpened && c.autoReconnect && !c.closedByUs
    requires c.rejected || (c.sockets.held.None? && !c.reconnect.armed)
    ensures c.status in {Unpaired, Revoked, Failed}
    ensures c.status == Unpaired ==> NotPaired in c.latches
    ensures c.status == Revoked ==> ThrownOut in c.latches
  {
  }

  // ---- a run in which the status hides why the client stopped -------------------------

  /** What every connection of this run shares: a first signature still being made, and nobody enrolled. */
  ghost predicate OneSignatureOut(c: NotifyClient)
    reads c
  {
    c.Valid() && c.autoReconnect && !c.hasDeviceId && c.pairedWith == None && c.signing == 1
  }

  /** A pairing attempt whose signature is being made. */
  method FirstSocket() returns (c: NotifyClient)
    ensures fresh(c) && OneSignatureOut(c) && c.nextSocket > 0 && c.Speaks(c.nextSocket - 1)
    ensures c.status in {Connecting, Reconnecting} && !c.rejected && !c.closedByUs && c.ackedSeq == 0
    ensures c.pendingCode.Some? && c.hasKeys && c.hello == Some("hub")
  {
    c := new NotifyClient(true);
    c.Pair("K7QX2MRD9FBT");
    var signs := c.Hello(c.nextSocket - 1, "hub", None, 1);
  }

  /** The socket is lost meanwhile; a second one opens. */
  method FirstSocketLost() returns (c: NotifyClient)
    ensures fresh(c) && OneSignatureOut(c) && c.JustOpened() && c.pendingCode.Some? && c.hasKeys
  {
    c := FirstSocketGone();
    c.ReconnectFires();
  }

  method FirstSocketGone() returns (c: NotifyClient)
    ensures fresh(c) && OneSignatureOut(c) && c.reconnect.armed && c.pendingCode.Some? && c.hasKeys
  {
    c := FirstSocket();
    c.OnClose(c.nextSocket - 1, 0.0);
  }

  /** On the second one the pair frame goes out. */
  method SecondPairs(c: NotifyClient)
    requires OneSignatureOut(c) && c.JustOpened() && c.pendingCode.Some? && c.hasKeys
    modifies c
    ensures OneSignatureOut(c) && c.nextSocket == old(c.nextSocket) && c.Speaks(c.nextSocket - 1) && !c.closedByUs
  {
    var signs := c.Hello(c.nextSocket - 1, "hub", None, 2);
    c.SignedForPairing();
  }

  /** And is refused. */
  method SecondRefused(c: NotifyClient)
    requires OneSignatureOut(c) && c.JustOpened() && c.pendingCode.Some? && c.hasKeys
    modifies c
    ensures OneSignatureOut(c) && c.sockets.held == None && c.pendingCode == None
  {
    SecondPairs(c);
    c.ErrorFrame(c.nextSocket - 1, true, 3);
    c.OnClose(c.nextSocket - 1, 0.0);
  }

  /** A third socket is told that the device is not paired. */
  method ThirdUnpaired(c: NotifyClient)
    requires OneSignatureOut(c) && c.pendingCode == None
    modifies c
    ensures OneSignatureOut(c) && !c.closedByUs && !c.rejected && c.status == Unpaired
    ensures c.sockets.held == None && !c.reconnect.armed
  {
    ThirdTold(c);
    c.OnClose(c.nextSocket - 1, 0.0);
  }

  method ThirdTold(c: NotifyClient)
    requires OneSignatureOut(c) && c.pendingCode == None
    modifies c
    ensures OneSignatureOut(c) && !c.closedByUs && !c.rejected && c.status == Unpaired && !c.reconnect.armed
    ensures c.nextSocket > 0 && c.sockets.held == Some(c.nextSocket - 1)
  {
    c.Connect(false, None, 0);
    var signs := c.Hello(c.nextSocket - 1, "hub", None, 4);
  }

  /**
   * Then the first signature is ready: a client that was told it is not paired now looks as
   * if it were pairing, with no socket and no timer, so that even `resume` declines.
   */
  method LateSignature() returns (c: NotifyClient)
    ensures c.Valid() && c.autoReconnect && !c.closedByUs && !c.rejected
    ensures c.status == Pairing && c.sockets.held == None && !c.reconnect.armed && !c.Legible()
  {
    c := FirstSocketLost();
    SecondRefused(c);
    ThirdUnpaired(c);
    c.SignedForPairing();
  }

  // ---- a run in which a later connection moves the cursor --------------------------------

  /** The device is enrolled. */
  method Enrolled() returns (c: NotifyClient)
    ensures fresh(c) && c.Valid() && c.autoReconnect && c.nextSocket > 0 && c.Speaks(c.nextSocket - 1)
    ensures c.freshlyPaired && c.enrolledOn == Some(c.nextSocket - 1) && c.pairedWith == Some("hub")
    ensures c.ackedSeq == 0 && c.hasDeviceId && c.hasKeys && c.status == Pairing && !c.rejected && !c.closedByUs
  {
    c := FirstSocket();
    c.SignedForPairing();
    c.Paired(c.nextSocket - 1, 2);
  }

  /** Its socket is lost before `ready`. */
  method EnrolledThenLost() returns (c: NotifyClient)
    ensures fresh(c) && c.Valid() && c.JustOpened() && c.ackedSeq == 0 && c.hasDeviceId && c.hasKeys
    ensures c.freshlyPaired && c.enrolledOn != Some(c.nextSocket - 1) && c.pairedWith == Some("hub")
  {
    c := EnrolledAndGone();
    c.ReconnectFires();
  }

  method EnrolledAndGone() returns (c: NotifyClient)
    ensures fresh(c) && c.Valid() && c.reconnect.armed && c.ackedSeq == 0 && c.hasDeviceId && c.hasKeys
    ensures c.nextSocket > 0 && c.freshlyPaired && c.enrolledOn == Some(c.nextSocket - 1) && c.pairedWith == Some("hub")
  {
    c := Enrolled();
    c.OnClose(c.nextSocket - 1, 0.0);
  }

  /** The next connection, which only authenticates, is moved past whatever came in between. */
  method CursorMovedLater(head: int) returns (c: NotifyClient)
    requires head > 0
    ensures c.Valid() && c.status == Ready && c.ackedSeq == head
    ensures c.sockets.held.Some? && c.enrolledOn != c.sockets.held
  {
    c := EnrolledThenLost();
    var signs := c.Hello(c.nextSocket - 1, "hub", None, 3);
    c.ReadyFrame(c.nextSocket - 1, Some(head), 4);
  }
}

/** The MCP client's shared session: many requests, one held token, logins one at a time. */
module Login {
  import opened Basics

  type Token = nat

  // ------------------------------------------------------ the shared client

  /** What `login_once` does once it holds the lock: use a token held meanwhile, log in, or give up. */
  datatype Decision = UseHeld(token: Token) | LogIn | Reject

  function Decide(credentials: bool, held: Option<Token>, stale: Option<Token>): Decision {
    if held.Some? && stale != held then UseHeld(held.value)
    else if credentials then LogIn
    else Reject
  }

  class OmnibusClient {
    const credentials: bool
    var token: Option<Token>

    /** `new`. */
    constructor New()
      ensures credentials && token == None
    {
      credentials := true;
      token := None;
    }

    /** `with_bearer`. */
    constructor WithBearer(bearer: Token)
      ensures !credentials && token == Some(bearer)
    {
      credentials := false;
      token := Some(bearer);
    }

    /** `login_once` under its lock, up to the point where `login` would send its request. */
    method CheckHeld(stale: Option<Token>) returns (d: Decision)
      ensures d == Decide(credentials, token, stale)
    {
      if token.Some? {
        var current := token.value;
        if stale != Some(current) {
          return UseHeld(current);
        }
      }
      if !credentials {
        return Reject;
      }
      d := LogIn;
    }

    /** The store at the end of `login`. */
    method Keep(minted: Token)
      modifies this
      ensures token == Some(minted)
    {
      token := Some(minted);
    }
  }

  // ------------------------------------------------------------- the requests

  /**
   * Where one request stands in `get_with_relogin` or `write_with_relogin`. `stale` is the token it saw
   * rejected, if this is its second attempt.
   */
  datatype Phase =
    | Begun
    | WantsLock(stale: Option<Token>)
    | Locked(stale: Option<Token>)
    | LoggingIn(stale: Option<Token>)
    | Storing(stale: Option<Token>, minted: Token)
    | Sending(token: Token, stale: Option<Token>)
    | Finished

  /**
   * The client, its requests, and three records kept for the proofs: every token ever held in order,
   * every token the server answered 401 to, and how many logins succeeded or succeeded in vain.
   */
  datatype World = World(
    credentials: bool,
    token: Option<Token>,
    lock: Option<nat>,
    requests: seq<Phase>,
    held: seq<Token>,
    rejected: set<Token>,
    minted: set<Token>,
    logins: nat,
    abandoned: nat)

  datatype Step =
    | Begin
    | ReadToken(i: nat)
    | TakeLock(i: nat)
    | Check(i: nat)
    | LoginFails(i: nat)
    | LoginAnswers(i: nat, mint: Token)
    | Store(i: nat)
    | Unauthorized(i: nat)
    | Answered(i: nat)
    | Cancelled(i: nat)

  /** The server mints a token it never minted before, nor the caller's own. */
  predicate Enabled(w: World, s: Step) {
    match s
    case Begin => true
    case ReadToken(i) => i < |w.requests| && w.requests[i].Begun?
    case TakeLock(i) => i < |w.requests| && w.requests[i].WantsLock? && w.lock.None?
    case Check(i) => i < |w.requests| && w.requests[i].Locked?
    case LoginFails(i) => i < |w.requests| && w.requests[i].LoggingIn?
    case LoginAnswers(i, mint) => i < |w.requests| && w.requests[i].LoggingIn? && mint !in w.minted
    case Store(i) => i < |w.requests| && w.requests[i].Storing?
    case Unauthorized(i) => i < |w.requests| && w.requests[i].Sending?
    case Answered(i) => i < |w.requests| && w.requests[i].Sending?
    case Cancelled(i) => i < |w.requests|
  }

  function Go(w: World, i: nat, p: Phase): World
    requires i < |w.requests|
  {
    w.(requests := w.requests[i := p])
  }

  function Release(w: World, i: nat): World {
    if w.lock == Some(i) then w.(lock := None) else w
  }

  function Do(w: World, s: Step): World
    requires Enabled(w, s)
  {
    match s
    case Begin => w.(requests := w.requests + [Begun])
    case ReadToken(i) =>
      Go(w, i, if w.token.Some? then Sending(w.token.value, None) else WantsLock(None))
    case TakeLock(i) => Go(w, i, Locked(w.requests[i].stale)).(lock := Some(i))
    case Check(i) =>
      var stale := w.requests[i].stale;
      (match Decide(w.credentials, w.token, stale)
       case UseHeld(current) => Release(Go(w, i, Sending(current, stale)), i)
       case LogIn => Go(w, i, LoggingIn(stale))
       case Reject => Release(Go(w, i, Finished), i))
    case LoginFails(i) => Release(Go(w, i, Finished), i)
    case LoginAnswers(i, mint) =>
      Go(w, i, Storing(w.requests[i].stale, mint)).(minted := w.minted + {mint}, logins := w.logins + 1)
    case Store(i) =>
      var Storing(stale, mint) := w.requests[i];
      Release(Go(w, i, Sending(mint, stale)), i).(token := Some(mint), held := w.held + [mint])
    case Unauthorized(i) =>
      var Sending(t, stale) := w.requests[i];
      Go(w, i, if stale.None? then WantsLock(Some(t)) else Finished).(rejected := w.rejected + {t})
    case Answered(i) => Go(w, i, Finished)
    case Cancelled(i) =>
      Release(Go(w, i, Finished), i).(abandoned := w.abandoned + if w.requests[i].Storing? then 1 else 0)
  }

  // ------------------------------------------------------------ the invariant

  predicate InLock(p: Phase) {
    p.Locked? || p.LoggingIn? || p.Storing?
  }

  /** Only the lock's holder is anywhere between `lock` and the return of `login_once`. */
  predicate OneAtATime(w: World) {
    && (forall i :: 0 <= i < |w.requests| ==> (InLock(w.requests[i]) <==> w.lock == Some(i)))
    && (w.lock.Some? ==> w.lock.value < |w.requests|)
  }

  predicate Known(w: World, t: Token) {
    t in w.held
  }

  predicate WasRejected(w: World, stale: Option<Token>) {
    stale.Some? ==> Known(w, stale.value) && stale.value in w.rejected
  }

  /** What a request may carry in each phase. */
  predicate Sound(w: World, p: Phase) {
    match p
    case Begun => true
    case WantsLock(stale) => WasRejected(w, stale)
    case Locked(stale) => WasRejected(w, stale)
    case LoggingIn(stale) => WasRejected(w, stale) && w.token == stale && w.credentials
    case Storing(stale, mint) =>
      WasRejected(w, stale) && w.token == stale && w.credentials && mint in w.minted && !Known(w, mint)
    case Sending(t, stale) => Known(w, t) && WasRejected(w, stale) && stale != Some(t)
    case Finished => true
  }

  predicate AllSound(w: World) {
    forall i :: 0 <= i < |w.requests| ==> Sound(w, w.requests[i])
  }

  /** The tokens held, in order: each once, each but the last rejected, the last held now. */
  predicate HeldInTurn(w: World) {
    && (forall i, j :: 0 <= i < j < |w.held| ==> w.held[i] != w.held[j])
    && (forall i :: 0 <= i < |w.held| - 1 ==> w.held[i] in w.rejected)
    && (forall i :: 0 <= i < |w.held| ==> w.held[i] in w.minted)
    && w.token == if w.held == [] then None else Some(w.held[|w.held| - 1])
  }

  function InFlight(w: World): nat {
    if w.lock.Some? && w.lock.value < |w.requests| && w.requests[w.lock.value].Storing? then 1 else 0
  }

  /** Every login was stored, is about to be, or was cancelled; a fixed bearer never logs in. */
  predicate Counted(w: World) {
    if w.credentials then w.logins == |w.held| + InFlight(w) + w.abandoned
    else w.logins == 0 && |w.held| == 1
  }

  predicate Inv(w: World) {
    OneAtATime(w) && AllSound(w) && HeldInTurn(w) && Counted(w)
  }

  // -------------------------------------------------------- every step keeps it

  lemma LockStep(w: World, s: Step)
    requires OneAtATime(w) && Enabled(w, s)
    ensures OneAtATime(Do(w, s))
  {}

  lemma HeldStep(w: World, s: Step)
    requires Inv(w) && Enabled(w, s)
    ensures HeldInTurn(Do(w, s))
  {
    if s.Store? {
      assert Sound(w, w.requests[s.i]);
    }
  }

  lemma CountStep(w: World, s: Step)
    requires Inv(w) && Enabled(w, s)
    ensures Counted(Do(w, s))
  {
    if s.LoginAnswers? || s.Store? {
      assert Sound(w, w.requests[s.i]);
    }
  }

  /** What a request may carry stays sound while it and the token stand still. */
  lemma SoundKept(w: World, v: World, p: Phase)
    requires Sound(w, p) && v.credentials == w.credentials && v.token == w.token
    requires w.rejected <= v.rejected && w.minted <= v.minted && v.held == w.held
    ensures Sound(v, p)
  {}

  /** Outside the lock, storing a token disturbs nobody. */
  lemma SoundThroughStore(w: World, v: World, p: Phase)
    requires Sound(w, p) && !InLock(p) && w.rejected <= v.rejected && w.held <= v.held
    ensures Sound(v, p)
  {}

  lemma SoundStep(w: World, s: Step)
    requires Inv(w) && Enabled(w, s)
    ensures AllSound(Do(w, s))
  {
    var v := Do(w, s);
    forall j | 0 <= j < |v.requests| ensures Sound(v, v.requests[j]) {
      if j < |w.requests| && v.requests[j] == w.requests[j] {
        assert Sound(w, w.requests[j]);
        if s.Store? {
          SoundThroughStore(w, v, w.requests[j]);
        } else {
          SoundKept(w, v, w.requests[j]);
        }
      } else if !s.Begin? {
        assert Sound(w, w.requests[s.i]);
        MovedSound(w, s);
      }
    }
  }

  lemma MovedSound(w: World, s: Step)
    requires Inv(w) && Enabled(w, s) && !s.Begin? && Sound(w, w.requests[s.i])
    ensures Sound(Do(w, s), Do(w, s).requests[s.i])
  {}

  lemma StepKeeps(w: World, s: Step)
    requires Inv(w) && Enabled(w, s)
    ensures Inv(Do(w, s))
  {
    LockStep(w, s);
    HeldStep(w, s);
    CountStep(w, s);
    SoundStep(w, s);
  }

  // ------------------------------------------------------------- whole runs

  function NewWorld(): World {
    World(true, None, None, [], [], {}, {}, 0, 0)
  }

  function BearerWorld(bearer: Token): World {
    World(false, Some(bearer), None, [], [bearer], {}, {bearer}, 0, 0)
  }

  predicate Possible(w: World, run: seq<Step>)
    decreases |run|
  {
    run == [] || (Enabled(w, run[0]) && Possible(Do(w, run[0]), run[1..]))
  }

  function After(w: World, run: seq<Step>): World
    requires Possible(w, run)
    decreases |run|
  {
    if run == [] then w else After(Do(w, run[0]), run[1..])
  }

  lemma {:induction false} RunKeeps(w: World, run: seq<Step>)
    requires Inv(w) && Possible(w, run)
    ensures Inv(After(w, run)) && After(w, run).credentials == w.credentials && w.held <= After(w, run).held
    decreases |run|
  {
    if run != [] {
      StepKeeps(w, run[0]);
      RunKeeps(Do(w, run[0]), run[1..]);
    }
  }

  lemma {:induction false} DistinctInSet(ts: seq<Token>, s: set<Token>)
    requires forall i, j :: 0 <= i < j < |ts| ==> ts[i] != ts[j]
    requires forall i :: 0 <= i < |ts| ==> ts[i] in s
    ensures |ts| <= |s|
  {
    if ts != [] {
      var last := ts[|ts| - 1];
      DistinctInSet(ts[..|ts| - 1], s - {last});
    }
  }

  /**
   * In every interleaving of any number of requests: a token is held once at most and given up only after
   * the server rejected it, so the logins whose token was kept are at most one more than the tokens rejected.
   */
  lemma LoginsBounded(run: seq<Step>)
    requires Possible(NewWorld(), run)
    ensures var w := After(NewWorld(), run);
            && w.logins <= 1 + |w.rejected| + w.abandoned
            && (forall i, j :: 0 <= i < j < |w.held| ==> w.held[i] != w.held[j] && w.held[i] in w.rejected)
  {
    RunKeeps(NewWorld(), run);
    var w := After(NewWorld(), run);
    if InFlight(w) == 1 {
      assert Sound(w, w.requests[w.lock.value]);
      DistinctInSet(w.held, w.rejected);
    } else if w.held != [] {
      DistinctInSet(w.held[..|w.held| - 1], w.rejected);
    }
  }

  /** A client built on a fixed bearer keeps it and never logs in, whatever the server answers. */
  lemma FixedBearerStays(bearer: Token, run: seq<Step>)
    requires Possible(BearerWorld(bearer), run)
    ensures var w := After(BearerWorld(bearer), run);
            w.token == Some(bearer) && w.logins == 0 && w.held == [bearer]
  {
    RunKeeps(BearerWorld(bearer), run);
  }

  /** No request repeats the very token it saw rejected, and a second 401 ends it. */
  lemma RetryIsFresh(w: World, i: nat)
    requires Inv(w) && i < |w.requests| && w.requests[i].Sending? && w.requests[i].stale.Some?
    ensures w.requests[i].stale.value in w.rejected && w.requests[i].token != w.requests[i].stale.value
    ensures Do(w, Unauthorized(i)).requests[i] == Finished
  {
    assert Sound(w, w.requests[i]);
  }

  /** The token changes only in a store, and then only when the server had rejected the old one. */
  lemma ReplacedOnlyWhenRejected(w: World, s: Step)
    requires Inv(w) && Enabled(w, s) && Do(w, s).token != w.token
    ensures s.Store? && w.lock == Some(s.i)
    ensures w.token.Some? ==> w.token.value in w.rejected
  {
    assert Sound(w, w.requests[s.i]);
  }

  // ------------------------------------------------------- requests get on

  lemma {:induction false} RunConcat(w: World, a: seq<Step>, b: seq<Step>)
    requires Possible(w, a) && Possible(After(w, a), b)
    ensures Possible(w, a + b) && After(w, a + b) == After(After(w, a), b)
    decreases |a|
  {
    if a == [] {
      assert a + b == b;
    } else {
      RunConcat(Do(w, a[0]), a[1..], b);
      assert (a + b)[1..] == a[1..] + b;
    }
  }

  lemma OneStep(w: World, s: Step)
    requires Enabled(w, s)
    ensures Possible(w, [s]) && After(w, [s]) == Do(w, s)
  {
    assert [s][1..] == [];
  }

  lemma {:induction false} FreshToken(minted: set<Token>) returns (mint: Token)
    ensures forall t :: t in minted ==> t < mint
  {
    if minted == {} {
      return 0;
    }
    var t :| t in minted;
    var above := FreshToken(minted - {t});
    mint := if above <= t then t + 1 else above;
    forall u | u in minted ensures u < mint {
      assert u == t || u in minted - {t};
    }
  }

  /** A step request `j` takes on its way to sending: the token read, the lock, the check, a login answered, its token stored. */
  predicate Drives(s: Step, j: nat) {
    !s.Begin? && s.i == j && (s.ReadToken? || s.TakeLock? || s.Check? || s.LoginAnswers? || s.Store?)
  }

  predicate AllDrive(run: seq<Step>, j: nat) {
    forall k :: 0 <= k < |run| ==> Drives(run[k], j)
  }

  /** Request `j` has left the lock to send the token now held, which is not the one it saw rejected; nobody else moved. */
  predicate SendsFresh(w: World, v: World, j: nat, stale: Option<Token>) {
    && j < |w.requests| == |v.requests| && v.lock.None? && v.credentials == w.credentials
    && v.token.Some? && v.token != stale && v.requests[j] == Sending(v.token.value, stale)
    && forall k :: 0 <= k < |w.requests| && k != j ==> v.requests[k] == w.requests[k]
  }

  lemma StoreSends(w: World, j: nat) returns (run: seq<Step>)
    requires Inv(w) && w.lock == Some(j) && j < |w.requests| && w.requests[j].Storing?
    ensures AllDrive(run, j) && Possible(w, run) && SendsFresh(w, After(w, run), j, w.requests[j].stale)
  {
    assert Sound(w, w.requests[j]);
    run := [Store(j)];
    OneStep(w, Store(j));
  }

  lemma LoginSends(w: World, j: nat) returns (run: seq<Step>)
    requires Inv(w) && w.lock == Some(j) && j < |w.requests| && w.requests[j].LoggingIn?
    ensures AllDrive(run, j) && Possible(w, run) && SendsFresh(w, After(w, run), j, w.requests[j].stale)
  {
    var mint := FreshToken(w.minted);
    var s := LoginAnswers(j, mint);
    OneStep(w, s);
    StepKeeps(w, s);
    var rest := StoreSends(Do(w, s), j);
    RunConcat(w, [s], rest);
    run := [s] + rest;
  }

  lemma CheckSends(w: World, j: nat) returns (run: seq<Step>)
    requires Inv(w) && w.credentials && w.lock == Some(j) && j < |w.requests| && w.requests[j].Locked?
    ensures AllDrive(run, j) && Possible(w, run) && SendsFresh(w, After(w, run), j, w.requests[j].stale)
  {
    run := [Check(j)];
    OneStep(w, Check(j));
    StepKeeps(w, Check(j));
    if Do(w, Check(j)).requests[j].LoggingIn? {
      var rest := LoginSends(Do(w, Check(j)), j);
      RunConcat(w, run, rest);
      run := run + rest;
    }
  }

  /** With the lock free, a request that wants it gets to send a token by its own steps alone. */
  lemma FreeLockSends(w: World, i: nat) returns (run: seq<Step>)
    requires Inv(w) && w.credentials && w.lock.None? && i < |w.requests| && w.requests[i].WantsLock?
    ensures AllDrive(run, i) && Possible(w, run) && SendsFresh(w, After(w, run), i, w.requests[i].stale)
  {
    var s := TakeLock(i);
    OneStep(w, s);
    StepKeeps(w, s);
    var rest := CheckSends(Do(w, s), i);
    RunConcat(w, [s], rest);
    run := [s] + rest;
  }

  /** Whoever holds the lock gets to leave it by its own steps alone. */
  lemma HolderLeaves(w: World, j: nat) returns (run: seq<Step>)
    requires Inv(w) && w.credentials && w.lock == Some(j)
    ensures j < |w.requests| && AllDrive(run, j) && Possible(w, run)
    ensures InLock(w.requests[j]) && SendsFresh(w, After(w, run), j, w.requests[j].stale)
  {
    if w.requests[j].Locked? {
      run := CheckSends(w, j);
    } else if w.requests[j].LoggingIn? {
      run := LoginSends(w, j);
    } else {
      run := StoreSends(w, j);
    }
  }

  /** A request that has just begun sends the token held, at once, or wants the lock with none to avoid. */
  lemma BegunReads(w: World, i: nat)
    requires Inv(w) && i < |w.requests| && w.requests[i].Begun?
    ensures Possible(w, [ReadToken(i)]) && Inv(After(w, [ReadToken(i)]))
    ensures var v := After(w, [ReadToken(i)]);
            && v == w.(requests := v.requests)
            && |v.requests| == |w.requests|
            && v.requests[i] == if w.token.Some? then Sending(w.token.value, None) else WantsLock(None)
  {
    OneStep(w, ReadToken(i));
    StepKeeps(w, ReadToken(i));
  }

  /** Every step is request `i`'s own or, if the lock is held, one by which its holder goes on. */
  predicate OwnOrHolder(w: World, way: seq<Step>, i: nat) {
    forall k :: 0 <= k < |way| ==> Drives(way[k], i) || (w.lock.Some? && Drives(way[k], w.lock.value))
  }

  /** The lock's holder leaves first, if there is one; then the request takes its own steps. */
  lemma WaiterSends(w: World, i: nat) returns (way: seq<Step>)
    requires Inv(w) && w.credentials && i < |w.requests| && w.requests[i].WantsLock?
    ensures OwnOrHolder(w, way, i) && Possible(w, way) && Sends(After(w, way), i, w.requests[i].stale)
  {
    var ahead := [];
    if w.lock.Some? {
      ahead := HolderLeaves(w, w.lock.value);
    }
    RunKeeps(w, ahead);
    var own := FreeLockSends(After(w, ahead), i);
    RunConcat(w, ahead, own);
    way := ahead + own;
  }

  lemma BeginnerSends(w: World, i: nat) returns (way: seq<Step>)
    requires Inv(w) && w.credentials && i < |w.requests| && w.requests[i].Begun?
    ensures OwnOrHolder(w, way, i) && Possible(w, way) && Sends(After(w, way), i, None)
    ensures w.token.Some? ==> way == [ReadToken(i)]
  {
    var read := [ReadToken(i)];
    BegunReads(w, i);
    way := read;
    if w.token.None? {
      var rest := WaiterSends(After(w, read), i);
      RunConcat(w, read, rest);
      way := read + rest;
    }
  }

  /** Request `i` sends the token now held, other than the one it saw rejected. */
  predicate Sends(w: World, i: nat, stale: Option<Token>) {
    i < |w.requests| && w.token.Some? && w.token != stale && w.requests[i] == Sending(w.token.value, stale)
  }

  /**
   * Wherever the requests of a client with credentials stand, one that has begun or wants the lock can get to send a
   * token other than the one it saw rejected: at once if it has just begun and a token is held, and otherwise by its
   * own steps and those by which the lock's holder, if there is one, leaves it.
   */
  lemma RequestGetsOn(run: seq<Step>, i: nat) returns (way: seq<Step>)
    requires Possible(NewWorld(), run)
    requires var w := After(NewWorld(), run); i < |w.requests| && (w.requests[i].WantsLock? || w.requests[i].Begun?)
    ensures var w := After(NewWorld(), run);
            && OwnOrHolder(w, way, i) && Possible(w, way)
            && Sends(After(w, way), i, if w.requests[i].Begun? then None else w.requests[i].stale)
            && (w.requests[i].Begun? && w.token.Some? ==> way == [ReadToken(i)])
  {
    RunKeeps(NewWorld(), run);
    var w := After(NewWorld(), run);
    if w.requests[i].WantsLock? {
      way := WaiterSends(w, i);
    } else {
      way := BeginnerSends(w, i);
    }
  }

  /** The request saw its first send rejected, and has not made its second yet. */
  predicate AwaitsRetry(p: Phase) {
    (p.WantsLock? || p.Locked? || p.LoggingIn? || p.Storing?) && p.stale.Some?
  }

  lemma OthersStay(w: World, s: Step, i: nat)
    requires Enabled(w, s) && i < |w.requests| && (s.Begin? || s.i != i)
    ensures i < |Do(w, s).requests| && Do(w, s).requests[i] == w.requests[i]
  {}

  lemma OwnStep(w: World, s: Step)
    requires Enabled(w, s) && !s.Begin? && AwaitsRetry(w.requests[s.i])
    ensures var p, q := w.requests[s.i], Do(w, s).requests[s.i];
            || ((AwaitsRetry(q) || q.Sending?) && q.stale == p.stale)
            || (q.Finished? && (s.LoginFails? || s.Cancelled? || (s.Check? && !w.credentials)))
  {}

  /**
   * A first 401 is never the end: the request then goes on to send a token other than the rejected one, and ends before
   * that only when a login fails, it is cancelled, or the client has nothing to log in with.
   */
  lemma RetryComes(w: World, s: Step, i: nat)
    requires Inv(w) && Enabled(w, s) && i < |w.requests|
    ensures i < |Do(w, s).requests|
    ensures s == Unauthorized(i) && w.requests[i].stale.None? ==>
              Do(w, s).requests[i] == WantsLock(Some(w.requests[i].token))
    ensures AwaitsRetry(w.requests[i]) ==>
              var p, q := w.requests[i], Do(w, s).requests[i];
              || (AwaitsRetry(q) && q.stale == p.stale)
              || (q.Sending? && q.stale == p.stale && Some(q.token) != p.stale)
              || (q.Finished? && (s == LoginFails(i) || s == Cancelled(i) || (s == Check(i) && !w.credentials)))
  {
    if s.Begin? || s.i != i {
      OthersStay(w, s, i);
    } else if AwaitsRetry(w.requests[i]) {
      OwnStep(w, s);
      SoundStep(w, s);
      assert Sound(Do(w, s), Do(w, s).requests[i]);
    }
  }
}

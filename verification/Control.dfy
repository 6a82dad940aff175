/** The running device's live state, its critical sections, and how a device starts. */
module Control {
  import opened Basics
  import opened KoboDevice

  /** What the state file keeps. */
  datatype SavedState = SavedState(url: Option<string>, token: string, wiredUrl: Option<string>, device: DeviceState)

  /** `SavedState::token_wired_for`. */
  predicate TokenWiredFor(saved: SavedState, url: string) {
    saved.wiredUrl.None? || saved.wiredUrl.value == url
  }

  datatype LastSync = SyncedPages(pages: nat) | SyncFailed(message: string)

  /** The parts of a running device that change, all behind one lock. */
  datatype LiveState = LiveState(
    saved: SavedState, url: string, syncing: bool, lastSync: Option<LastSync>, requests: seq<string>)

  /** `Live::refusal`: the origin the token was auto-wired for, when that is another server's. */
  function Refusal(l: LiveState): Option<string> {
    if l.saved.wiredUrl.None? || TokenWiredFor(l.saved, l.url) then None else l.saved.wiredUrl
  }

  /** What `begin_exchange` decided. */
  datatype Begun = Busy | Refused(wiredUrl: string) | Begin(device: DeviceState, url: string, token: string)

  function AfterBegin(l: LiveState): (LiveState, Begun) {
    if l.syncing then (l, Busy)
    else if Refusal(l).Some? then (l, Refused(Refusal(l).value))
    else (l.(syncing := true), Begin(l.saved.device, l.url, l.saved.token))
  }

  /** The commit section of `run_exchange`; only a sync sets `last_sync`. */
  function AfterCommit(l: LiveState, device: DeviceState, made: seq<string>, done: Option<LastSync>): LiveState {
    l.(saved := l.saved.(device := device), requests := l.requests + made,
       lastSync := if done.Some? then done else l.lastSync)
  }

  /** The locked section of `reset`; `None` while busy. */
  function AfterReset(l: LiveState, booksDir: string): Option<LiveState> {
    if l.syncing then None
    else
      var wiped := NewDevice(l.saved.device.hardwareId).(storage := Some(booksDir));
      Some(l.(saved := l.saved.(device := wiped), lastSync := None, requests := [], syncing := true))
  }

  /** The locked section of `remove_download`; `None` while busy or for a book not held. */
  function AfterRemove(l: LiveState, book: string): Option<LiveState> {
    if l.syncing || book !in l.saved.device.library then None
    else
      var d := l.saved.device;
      var removed := d.library[book].(downloaded := false, downloadProblem := None);
      Some(l.(saved := l.saved.(device := d.(library := d.library[book := removed])), syncing := true))
  }

  /** Where a retarget points the device. */
  datatype Retarget = ToUrl(url: string) | ToToken(token: string) | ToWired(token: string, url: string)

  /** The locked section of `retarget`; `None` while busy. */
  function AfterRetarget(l: LiveState, to: Retarget): Option<LiveState> {
    if l.syncing then None
    else
      match to
      case ToUrl(url) =>
        Some(l.(saved := l.saved.(url := Some(url), device := Forget(l.saved.device, false, url)), url := url))
      case ToToken(token) =>
        Some(l.(saved := l.saved.(token := token, wiredUrl := None, device := Forget(l.saved.device, true, l.url))))
      case ToWired(token, url) =>
        Some(l.(saved := l.saved.(token := token, wiredUrl := Some(url), device := Forget(l.saved.device, true, l.url))))
  }

  predicate NeedsWire(l: LiveState) {
    !TokenWiredFor(l.saved, l.url)
  }

  /** `Live`, updated in place under its lock; each method is one critical section. */
  class Live {
    var saved: SavedState
    var url: string
    var syncing: bool
    var lastSync: Option<LastSync>
    var requests: seq<string>

    function State(): LiveState
      reads this
    {
      LiveState(saved, url, syncing, lastSync, requests)
    }

    /** `Control::new`. */
    constructor (saved: SavedState, url: string, booksDir: string)
      ensures State() == Started(saved, url, booksDir)
    {
      this.saved := saved.(device := saved.device.(storage := Some(booksDir)));
      this.url, syncing, lastSync, requests := url, false, None, [];
    }

    method BeginExchange() returns (begun: Begun)
      modifies this`syncing
      ensures (State(), begun) == AfterBegin(old(State()))
    {
      if syncing {
        return Busy;
      }
      if saved.wiredUrl.Some? && !TokenWiredFor(saved, url) {
        return Refused(saved.wiredUrl.value);
      }
      syncing := true;
      return Begin(saved.device, url, saved.token);
    }

    method Commit(device: DeviceState, made: seq<string>, done: Option<LastSync>)
      modifies this`saved, this`requests, this`lastSync
      ensures State() == AfterCommit(old(State()), device, made, done)
    {
      saved := saved.(device := device);
      requests := requests + made;
      if done.Some? {
        lastSync := done;
      }
    }

    method BeginReset(booksDir: string) returns (started: bool)
      modifies this
      ensures started == !old(syncing)
      ensures State() == match AfterReset(old(State()), booksDir) case Some(l) => l case None => old(State())
    {
      if syncing {
        return false;
      }
      saved := saved.(device := NewDevice(saved.device.hardwareId));
      saved := saved.(device := saved.device.(storage := Some(booksDir)));
      lastSync := None;
      requests := [];
      syncing := true;
      return true;
    }

    method RemoveDownload(book: string) returns (started: bool)
      modifies this`saved, this`syncing
      ensures started == (!old(syncing) && book in old(saved).device.library)
      ensures State() == match AfterRemove(old(State()), book) case Some(l) => l case None => old(State())
    {
      if syncing || book !in saved.device.library {
        return false;
      }
      var removed := saved.device.library[book].(downloaded := false, downloadProblem := None);
      saved := saved.(device := saved.device.(library := saved.device.library[book := removed]));
      syncing := true;
      return true;
    }

    method Retarget(to: Retarget) returns (needsWire: Option<bool>)
      modifies this`saved, this`url
      ensures needsWire.None? <==> old(syncing)
      ensures State() == match AfterRetarget(old(State()), to) case Some(l) => l case None => old(State())
      ensures needsWire.Some? ==> needsWire.value == NeedsWire(State())
    {
      if syncing {
        return None;
      }
      match to {
        case ToUrl(u) =>
          saved := saved.(url := Some(u), device := Forget(saved.device, false, u));
          url := u;
        case ToToken(token) =>
          saved := saved.(token := token, wiredUrl := None, device := Forget(saved.device, true, url));
        case ToWired(token, u) =>
          saved := saved.(token := token, wiredUrl := Some(u), device := Forget(saved.device, true, url));
      }
      return Some(!TokenWiredFor(saved, url));
    }

    /** `SyncingGuard::drop`'s locked half. */
    method Release()
      modifies this`syncing
      ensures State() == old(State()).(syncing := false)
    {
      syncing := false;
    }
  }

  /** A retarget warns exactly when the next exchange would be refused, and never lets a token go to another origin. */
  lemma WarningIsRefusal(l: LiveState, to: Retarget)
    requires AfterRetarget(l, to).Some?
    ensures var after := AfterRetarget(l, to).value;
            && (NeedsWire(after) <==> AfterBegin(after).1.Refused?)
            && (AfterBegin(after).1.Begin? ==> TokenWiredFor(after.saved, AfterBegin(after).1.url))
            && after.saved.device.library == l.saved.device.library
  {}

  /** The origin of another server the token was auto-wired for, as an exchange at `url` would meet it. */
  predicate WiredElsewhere(wiredUrl: Option<string>, url: string) {
    wiredUrl.Some? && wiredUrl.value != url
  }

  /** No download URL is kept that lies outside `url`. */
  predicate UrlsUnder(d: DeviceState, url: string) {
    forall id :: id in d.downloadUrls ==> url + "/" <= d.downloadUrls[id]
  }

  /** The device still resumes where it was with a server, and can still fetch its books. */
  predicate Resumes(before: DeviceState, after: DeviceState) {
    after.syncToken == before.syncToken && after.downloadUrls == before.downloadUrls
  }

  predicate StartsOver(after: DeviceState) {
    after.syncToken.None? && after.downloadUrls == map[]
  }

  /** What the device still knows of its server: all of it exactly when token and download URLs fit the new target. */
  lemma ForgetsElsewhere(d: DeviceState, tokenChanged: bool, url: string)
    ensures var f := Forget(d, tokenChanged, url);
            && f.readingServicesHost.None? && f.library == d.library && f.hardwareId == d.hardwareId
            && f.covers == d.covers && f.storage == d.storage
            && if !tokenChanged && UrlsUnder(d, url) then Resumes(d, f) else StartsOver(f)
  {}

  /**
   * After a retarget the next exchange goes to the URL, and carries the token, that were asked for, unless the token
   * was auto-wired for another origin: then it is refused. Nothing else about the target changes.
   */
  lemma RetargetedTo(l: LiveState, to: Retarget)
    requires !l.syncing
    ensures AfterRetarget(l, to).Some?
    ensures var after := AfterRetarget(l, to).value;
            var d, next := after.saved.device, AfterBegin(after).1;
            match to
            case ToUrl(url) =>
              && after.saved.url == Some(url) && after.saved.token == l.saved.token && after.saved.wiredUrl == l.saved.wiredUrl
              && next == (if WiredElsewhere(l.saved.wiredUrl, url) then Refused(l.saved.wiredUrl.value)
                          else Begin(d, url, l.saved.token))
              && (if UrlsUnder(l.saved.device, url) then Resumes(l.saved.device, d) else StartsOver(d))
            case ToToken(token) =>
              next == Begin(d, l.url, token) && after.saved.token == token && after.saved.url == l.saved.url && StartsOver(d)
            case ToWired(token, url) =>
              && after.saved.token == token && after.saved.wiredUrl == Some(url) && after.saved.url == l.saved.url
              && next == (if url == l.url then Begin(d, l.url, token) else Refused(url))
              && StartsOver(d)
  {}

  /** A reset leaves who the device is and where it syncs, and nothing it holds; it is busy until that is saved. */
  lemma ResetsTo(l: LiveState, booksDir: string)
    requires !l.syncing
    ensures AfterReset(l, booksDir).Some?
    ensures var after := AfterReset(l, booksDir).value;
            var d := after.saved.device;
            && d.library == map[] && d.covers == map[] && StartsOver(d) && d.readingServicesHost.None?
            && d.hardwareId == l.saved.device.hardwareId && d.storage == Some(booksDir)
            && after.saved == l.saved.(device := d) && after.url == l.url
            && after.requests == [] && after.lastSync.None? && AfterBegin(after).1 == Busy
  {}

  /** Removing a download is what the device itself makes of it, and is turned away for a book it does not hold. */
  lemma RemovesAsDevice(l: LiveState, book: string)
    requires !l.syncing
    ensures var (d, error) := Done(l.saved.device, Removing(book));
            match AfterRemove(l, book)
            case None => error == Some(UnknownBook(book))
            case Some(after) =>
              error.None? && after == l.(saved := l.saved.(device := d), syncing := true) && book in d.library
              && !d.library[book].downloaded && d.library[book].downloadProblem.None?
  {}

  // ---------------------------------------------------------------- starting

  const DEFAULT_URL: string := "http://localhost:3000"

  datatype Target = Target(url: string, pinnedUrl: Option<string>, token: Option<string>, wiredUrl: Option<string>)

  function Or<T>(a: Option<T>, b: Option<T>): Option<T> {
    if a.Some? then a else b
  }

  /** `resolve_target`. */
  function ResolveTarget(argUrl: Option<string>, argToken: Option<string>, saved: Option<SavedState>, devServer: Option<string>): Target {
    var pinned := Or(argUrl, match saved case Some(s) => s.url case None => None);
    var url := match Or(pinned, devServer) case Some(u) => u case None => DEFAULT_URL;
    if argToken.Some? then Target(url, pinned, argToken, None)
    else if saved.Some? && TokenWiredFor(saved.value, url) then
      Target(url, pinned, Some(saved.value.token), saved.value.wiredUrl)
    else Target(url, pinned, None, None)
  }

  /** `start`: `wired` is the token auto-wire would mint, `minted` a fresh hardware id. */
  function StartState(argUrl: Option<string>, argToken: Option<string>, saved: Option<SavedState>, devServer: Option<string>,
                      wired: string, minted: string): (SavedState, string) {
    var target := ResolveTarget(argUrl, argToken, saved, devServer);
    var token := match target.token case Some(t) => t case None => wired;
    var wiredUrl := if target.token.Some? then target.wiredUrl else Some(target.url);
    var device := match saved
      case Some(s) => Forget(s.device, s.token != token, target.url)
      case None => NewDevice(minted);
    (SavedState(target.pinnedUrl, token, wiredUrl, device), target.url)
  }

  function Started(saved: SavedState, url: string, booksDir: string): LiveState {
    LiveState(saved.(device := saved.device.(storage := Some(booksDir))), url, false, None, [])
  }

  /** The device syncs with the origin it pins, if it pins one. */
  predicate PinnedHere(l: LiveState) {
    l.saved.url.Some? ==> l.url == l.saved.url.value
  }

  /** However it starts, a device's token is good for its origin, so its first exchange is not refused. */
  lemma StartIsGood(argUrl: Option<string>, argToken: Option<string>, saved: Option<SavedState>, devServer: Option<string>,
                    wired: string, minted: string, booksDir: string)
    ensures var (s, url) := StartState(argUrl, argToken, saved, devServer, wired, minted);
            var l := Started(s, url, booksDir);
            && TokenWiredFor(l.saved, l.url) && PinnedHere(l)
            && AfterBegin(l).1.Begin?
            && UrlsUnder(l.saved.device, l.url)
            && (saved.Some? && argToken.None? && !TokenWiredFor(saved.value, url) ==> s.token == wired)
            && (saved.Some? && s.token != saved.value.token ==> s.device.syncToken.None?)
            && (saved.Some? ==> s.device.library == saved.value.device.library)
            && !l.syncing && l.lastSync.None? && l.requests == [] && l.saved.device.storage == Some(booksDir)
  {}

  /**
   * Where a device starts: a URL given now, else one saved, else the dev server's, else the default; with a token given
   * now, else one saved that is not wired for another origin, else one wired for this origin. The device is the saved
   * one, or a new one, and resumes where it was exactly when token and download URLs still fit.
   */
  lemma GivenBeatsSaved(argUrl: Option<string>, argToken: Option<string>, saved: Option<SavedState>, devServer: Option<string>,
                        wired: string, minted: string)
    ensures var (s, url) := StartState(argUrl, argToken, saved, devServer, wired, minted);
            && (argUrl.Some? ==> url == argUrl.value && s.url == argUrl)
            && (argUrl.None? && saved.Some? && saved.value.url.Some? ==> Some(url) == saved.value.url && s.url == saved.value.url)
            && (argUrl.None? && (saved.None? || saved.value.url.None?) ==>
                  s.url.None? && url == match devServer case Some(u) => u case None => "http://localhost:3000")
    ensures var (s, url) := StartState(argUrl, argToken, saved, devServer, wired, minted);
            && (argToken.Some? ==> s.token == argToken.value && s.wiredUrl.None?)
            && (argToken.None? && saved.Some? && !WiredElsewhere(saved.value.wiredUrl, url) ==>
                  s.token == saved.value.token && s.wiredUrl == saved.value.wiredUrl)
            && (argToken.None? && (saved.None? || WiredElsewhere(saved.value.wiredUrl, url)) ==>
                  s.token == wired && s.wiredUrl == Some(url))
    ensures var (s, url) := StartState(argUrl, argToken, saved, devServer, wired, minted);
            match saved
            case None => s.device.hardwareId == minted && s.device.library == map[] && StartsOver(s.device) && s.device.format == 1
            case Some(was) =>
              && s.device.hardwareId == was.device.hardwareId && s.device.library == was.device.library
              && if s.token == was.token && UrlsUnder(was.device, url) then Resumes(was.device, s.device) else StartsOver(s.device)
  {}
}

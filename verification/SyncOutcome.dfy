/** What a sync answers, and that it gets somewhere. */
module SyncOutcome {
  import opened Basics
  import opened KoboDevice
  import opened DeviceView
  import opened LibrarySync

  // ---------------------------------------------------------- what it answers

  /** The token sent with request `n`: the last one an answer before it carried, else the device's own. */
  function TokenAt(token: Option<string>, serve: Server, n: nat): Option<string>
    requires n >= 1
  {
    if n == 1 then token
    else
      var before := TokenAt(token, serve, n - 1);
      match serve(n - 1, before)
      case Answered(page) => if page.token.Some? then page.token else before
      case _ => before
  }

  /** What request `n` came to. */
  function AnswerTo(token: Option<string>, serve: Server, n: nat): Answer
    requires n >= 1
  {
    serve(n, TokenAt(token, serve, n))
  }

  predicate SaidMore(token: Option<string>, serve: Server, n: nat)
    requires n >= 1
  {
    var answer := AnswerTo(token, serve, n);
    answer.Answered? && answer.page.more
  }

  /** Every request before `n` was answered with a page that said there was more. */
  predicate Reached(token: Option<string>, serve: Server, n: nat) {
    forall k :: 1 <= k < n ==> SaidMore(token, serve, k)
  }

  /** The request that ends a sync, `51` when none does, and what the sync answers then. */
  predicate EndsAt(token: Option<string>, serve: Server, stop: nat, outcome: Outcome) {
    && 1 <= stop <= 51 && Reached(token, serve, stop)
    && if stop == 51 then outcome == NeverEnds
       else
         match AnswerTo(token, serve, stop)
         case NoAnswer => outcome == Transport
         case RejectedAnswer => outcome == Rejected
         case Undecodable => outcome == BadResponse
         case Answered(page) => !page.more && outcome == Synced(stop)
  }

  lemma PageToken(d: DeviceState, page: Page)
    ensures ApplyPage(d, page).syncToken == if page.token.Some? then page.token else d.syncToken
  {
    ItemsKeep(d, page.items);
  }

  lemma {:induction false} SyncEnds(token: Option<string>, d: DeviceState, serve: Server, fetched: nat) returns (stop: nat)
    requires 1 <= fetched <= 51 && d.syncToken == TokenAt(token, serve, fetched) && Reached(token, serve, fetched)
    ensures EndsAt(token, serve, stop, SyncFrom(d, serve, fetched).1)
    decreases 51 - fetched
  {
    stop := fetched;
    if fetched <= 50 && SaidMore(token, serve, fetched) {
      var page := serve(fetched, d.syncToken).page;
      PageToken(d, page);
      stop := SyncEnds(token, ApplyPage(d, page), serve, fetched + 1);
    }
  }

  /**
   * What a sync answers. It reports `n` pages exactly when requests 1 to `n`, 50 at most, were all answered and page
   * `n` is the first that does not say there is more; a failure is that of the first request not answered with a
   * page; and it never ends exactly when 50 pages all said there was more.
   */
  lemma OutcomeIs(d: DeviceState, serve: Server)
    ensures var o, t := SyncFrom(d, serve, 1).1, d.syncToken;
            && (forall n: nat :: o == Synced(n) <==>
                  1 <= n <= 50 && Reached(t, serve, n) && AnswerTo(t, serve, n).Answered? && !SaidMore(t, serve, n))
            && (o == Transport <==> exists n :: 1 <= n <= 50 && Reached(t, serve, n) && AnswerTo(t, serve, n) == NoAnswer)
            && (o == Rejected <==> exists n :: 1 <= n <= 50 && Reached(t, serve, n) && AnswerTo(t, serve, n) == RejectedAnswer)
            && (o == BadResponse <==> exists n :: 1 <= n <= 50 && Reached(t, serve, n) && AnswerTo(t, serve, n) == Answer.Undecodable)
            && (o == NeverEnds <==> forall n :: 1 <= n <= 50 ==> SaidMore(t, serve, n))
  {
    var t := d.syncToken;
    var stop := SyncEnds(t, d, serve, 1);
    forall n: nat | 1 <= n <= 50 && Reached(t, serve, n) && !SaidMore(t, serve, n) ensures n == stop {
      OneEnd(t, serve, n, stop);
    }
    if stop == 51 {
      assert forall n :: 1 <= n <= 50 ==> SaidMore(t, serve, n);
    } else {
      assert !SaidMore(t, serve, stop);
    }
  }

  lemma OneEnd(t: Option<string>, serve: Server, n: nat, stop: nat)
    requires 1 <= n <= 50 && Reached(t, serve, n) && !SaidMore(t, serve, n)
    requires 1 <= stop <= 51 && Reached(t, serve, stop) && (stop <= 50 ==> !SaidMore(t, serve, stop))
    ensures n == stop
  {}

  // -------------------------------------------------------------- it gets on

  /** The next page the token does not acknowledge, under one that does; `more` exactly while pages remain. */
  predicate Delivers(l: Ledger, token: Option<string>, answer: Answer) {
    var k := Acked(l, token);
    && answer.Answered?
    && (answer.page.more <==> k + 1 < |l.pages|)
    && if k < |l.pages| then answer.page.items == l.pages[k] && answer.page.token.Some? && Acked(l, answer.page.token) == k + 1
       else answer.page.items == [] && (answer.page.token.Some? ==> Acked(l, answer.page.token) == k)
  }

  /** A server that always answers, and always with what comes next. */
  ghost predicate Willing(l: Ledger, serve: Server) {
    forall n, t :: Delivers(l, t, serve(n, t))
  }

  /** No token acknowledges more than there is. */
  predicate Bounded(l: Ledger) {
    forall t :: t in l.acks ==> l.acks[t] <= |l.pages|
  }

  lemma WillingIsHonest(l: Ledger, serve: Server)
    requires Bounded(l) && Willing(l, serve)
    ensures Honest(l, true, serve)
  {
    forall n, t | serve(n, t).Answered? ensures PageFits(l, true, t, serve(n, t).page) {
      assert Delivers(l, t, serve(n, t));
    }
  }

  function Min(a: nat, b: nat): nat {
    if a < b then a else b
  }

  lemma {:induction false} Advances(l: Ledger, d: DeviceState, serve: Server, fetched: nat)
    requires Bounded(l) && Willing(l, serve) && 1 <= fetched <= 51
    ensures var k, (after, outcome) := Acked(l, d.syncToken), SyncFrom(d, serve, fetched);
            && Acked(l, after.syncToken) == Min(|l.pages|, k + (51 - fetched))
            && (k < |l.pages| ==> outcome == if |l.pages| - k <= 51 - fetched then Synced(fetched - 1 + (|l.pages| - k)) else NeverEnds)
            && (k == |l.pages| && fetched <= 50 ==> outcome == Synced(fetched))
    decreases 51 - fetched
  {
    if fetched <= 50 {
      assert Delivers(l, d.syncToken, serve(fetched, d.syncToken));
      var page := serve(fetched, d.syncToken).page;
      PageToken(d, page);
      if page.more {
        Advances(l, ApplyPage(d, page), serve, fetched + 1);
      }
    }
  }

  /**
   * One sync with a willing server takes up to 50 of the pages its token does not acknowledge. When no more are left
   * it succeeds, after a request for each (or one, for none), and the device acknowledges everything and shows it.
   */
  lemma SyncGetsOn(l: Ledger, base: ServerView, t: Tracked, serve: Server)
    requires Bounded(l) && Willing(l, serve) && InStep(l, true, base, t)
    ensures var left := |l.pages| - Acked(l, t.device.syncToken);
            var (after, outcome) := SyncFrom(t.device, serve, 1);
            && Acked(l, after.syncToken) == Min(|l.pages|, Acked(l, t.device.syncToken) + 50)
            && outcome == (if left > 50 then NeverEnds else if left == 0 then Synced(1) else Synced(left))
            && (left <= 50 ==> SameListings(View(after), ViewItems(base, Delivered(l, |l.pages|))))
            && (left <= 50 && Unmarked(t.log) ==> View(after) == ViewItems(base, Delivered(l, |l.pages|)))
  {
    Advances(l, t.device, serve, 1);
    WillingIsHonest(l, serve);
    SyncInStep(l, true, base, t, serve);
    var after := AfterSync(t, serve, 1);
    if Acked(l, after.device.syncToken) == |l.pages| {
      WholeLibrary(l, true, base, after);
      if Unmarked(t.log) {
        EntriesUnmarked(Taken(t.device, serve, 1));
      }
    }
  }

  lemma {:induction false} EntriesUnmarked(items: seq<SyncItem>)
    ensures Unmarked(Entries(items))
  {
    if items != [] {
      EntriesUnmarked(items[..|items| - 1]);
    }
  }

  /** The device after one sync with each of some servers. */
  function AfterSyncs(d: DeviceState, servers: seq<Server>): DeviceState {
    if servers == [] then d else SyncFrom(AfterSyncs(d, servers[..|servers| - 1]), servers[|servers| - 1], 1).0
  }

  /** However long the library is, one sync for every 50 pages left gets all of it. */
  lemma {:induction false} SyncsCatchUp(l: Ledger, d: DeviceState, servers: seq<Server>)
    requires Bounded(l) && forall i :: 0 <= i < |servers| ==> Willing(l, servers[i])
    ensures Acked(l, AfterSyncs(d, servers).syncToken) == Min(|l.pages|, Acked(l, d.syncToken) + 50 * |servers|)
  {
    if servers != [] {
      var init := servers[..|servers| - 1];
      SyncsCatchUp(l, d, init);
      Advances(l, AfterSyncs(d, init), servers[|servers| - 1], 1);
    }
  }
}

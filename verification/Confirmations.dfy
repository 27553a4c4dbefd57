/** src/helper.rs, `confirm_startup` and the helper that waits for it: what a committed update proves
    about the processes that acknowledged it. */
module Confirmations {
  import opened Outcomes
  import opened Trees
  import opened Manifests
  import opened Transactions
  import opened CrashSafety
  import opened Handoffs

  /** What one event does to one confirming process. */
  lemma ConfirmerStep(c: Setup, e: Event, m: Moment, m': Moment, n: nat)
    requires Happens(c, e, m, m') && n < |m'.world.confirmers|
    ensures n >= |m.world.confirmers| ==>
              var token := m'.world.confirmers[n].token;
              && m'.world.confirmers[n].at.TokenMatched?
              && e == Confirm(ChecksToken(token)) && m.world.site.plan == Some(token)
    ensures n < |m.world.confirmers| ==>
              var was, now := m.world.confirmers[n], m'.world.confirmers[n];
              && now.token == was.token
              && (now == was
                  || (e == Confirm(ChecksHash(n)) && was.at.TokenMatched? && now.at.HashMatched?
                      && HashMatches(c.plan, c.executable, At(m.disk.live, FilePath(c.executable))))
                  || (e == Confirm(ChecksState(n)) && was.at.HashMatched? && now.at.Entitled?
                      && In(m.disk, AwaitingConfirmation))
                  || (e == Confirm(WritesMarker(n)) && was.at.Entitled? && now.at.Returned?))
  {
  }

  lemma {:induction false} MatchedWhen(c: Setup, ms: seq<Moment>, es: seq<Event>, j: nat, n: nat) returns (g: nat)
    requires IsHistory(c, ms, es) && j < |ms| && n < |ms[j].world.confirmers|
    ensures g < j && es[g] == Confirm(ChecksToken(ms[j].world.confirmers[n].token))
    ensures ms[g].world.site.plan == Some(ms[j].world.confirmers[n].token) && |ms[g].world.confirmers| == n
  {
    assert HappensAt(c, ms, es, j - 1);
    ConfirmerStep(c, es[j - 1], ms[j - 1], ms[j], n);
    if n < |ms[j - 1].world.confirmers| {
      g := MatchedWhen(c, ms, es, j - 1, n);
    } else {
      ConfirmersGrow(c, es[j - 1], ms[j - 1], ms[j]);
      g := j - 1;
    }
  }

  lemma ConfirmersGrow(c: Setup, e: Event, m: Moment, m': Moment)
    requires Happens(c, e, m, m')
    ensures |m.world.confirmers| <= |m'.world.confirmers| <= |m.world.confirmers| + 1
  {
  }

  lemma {:induction false} HashedWhen(c: Setup, ms: seq<Moment>, es: seq<Event>, j: nat, n: nat) returns (h: nat)
    requires IsHistory(c, ms, es) && j < |ms| && n < |ms[j].world.confirmers|
    requires !ms[j].world.confirmers[n].at.TokenMatched?
    ensures h < j && es[h] == Confirm(ChecksHash(n)) && n < |ms[h].world.confirmers|
    ensures ms[h].world.confirmers[n].token == ms[j].world.confirmers[n].token
    ensures HashMatches(c.plan, c.executable, At(ms[h].disk.live, FilePath(c.executable)))
  {
    assert HappensAt(c, ms, es, j - 1);
    ConfirmerStep(c, es[j - 1], ms[j - 1], ms[j], n);
    if ms[j - 1].world.confirmers[n].at.TokenMatched? { h := j - 1; } else { h := HashedWhen(c, ms, es, j - 1, n); }
  }

  lemma {:induction false} EntitledWhen(c: Setup, ms: seq<Moment>, es: seq<Event>, j: nat, n: nat) returns (i: nat)
    requires IsHistory(c, ms, es) && j < |ms| && n < |ms[j].world.confirmers|
    requires ms[j].world.confirmers[n].at.Entitled? || ms[j].world.confirmers[n].at.Returned?
    ensures i < j && es[i] == Confirm(ChecksState(n)) && n < |ms[i].world.confirmers|
    ensures ms[i].world.confirmers[n].token == ms[j].world.confirmers[n].token
    ensures ms[i].world.confirmers[n].at.HashMatched? && In(ms[i].disk, AwaitingConfirmation)
  {
    assert HappensAt(c, ms, es, j - 1);
    ConfirmerStep(c, es[j - 1], ms[j - 1], ms[j], n);
    if ms[j - 1].world.confirmers[n].at.HashMatched? { i := j - 1; } else { i := EntitledWhen(c, ms, es, j - 1, n); }
  }

  lemma MarkerStep(c: Setup, e: Event, m: Moment, m': Moment)
    requires Happens(c, e, m, m') && m'.world.site.confirmed.Some?
    ensures !BeginsTransaction(e)
    ensures m.world.site.confirmed == m'.world.site.confirmed || (e.Confirm? && e.k.WritesMarker?)
    ensures e.Confirm? && e.k.WritesMarker? ==>
              && e.k.n < |m.world.confirmers| && m.world.confirmers[e.k.n].at.Entitled?
              && m'.world.site.confirmed == Some(m.world.confirmers[e.k.n].token)
  {
  }

  /** The confirmation marker holds the token of the process that wrote it, in this transaction. */
  lemma {:induction false} MarkedWhen(c: Setup, ms: seq<Moment>, es: seq<Event>, j: nat) returns (w: nat)
    requires IsHistory(c, ms, es) && j < |ms| && ms[j].world.site.confirmed.Some?
    ensures w < j && es[w].Confirm? && es[w].k.WritesMarker? && es[w].k.n < |ms[w].world.confirmers|
    ensures ms[w].world.confirmers[es[w].k.n] == Confirmer(ms[j].world.site.confirmed.value, Entitled)
    ensures |ms[w].world.sessions| == |ms[j].world.sessions|
  {
    assert HappensAt(c, ms, es, j - 1);
    MarkerStep(c, es[j - 1], ms[j - 1], ms[j]);
    SessionStep(c, es[j - 1], ms[j - 1], ms[j]);
    if es[j - 1].Confirm? && es[j - 1].k.WritesMarker? { w := j - 1; } else { w := MarkedWhen(c, ms, es, j - 1); }
  }

  lemma CommitStep(c: Setup, e: Event, m: Moment, m': Moment)
    requires Safe(c, m) && Happens(c, e, m, m') && In(m'.disk, Committed) && !In(m.disk, Committed)
    ensures IsCommit(e) && m.world.site.confirmed == Some(e.t) && m.world.lock.Helper? && m.world.lock.token == e.t
  {
    if BeginsTransaction(e) {
      hide Inv;
    } else {
      ChangesFollowProtocol(c, e, m.disk, m.world, m'.disk, m'.world);
      var s :| Does(c.plan, s, m.disk, m'.disk) && (s.Commit? ==> IsCommit(e));
      OnlyCommitCommits(c.plan, s, m.disk, m'.disk);
    }
  }

  lemma BeginIsNotCommitted(c: Setup, ms: seq<Moment>, es: seq<Event>, j: nat)
    requires IsHistory(c, ms, es) && j < |ms| && In(ms[j].disk, Committed)
    ensures j > 0 && !BeginsTransaction(es[j - 1])
  {
    if j > 0 { assert HappensAt(c, ms, es, j - 1); }
  }

  lemma {:induction false} CommittedWhen(c: Setup, ms: seq<Moment>, es: seq<Event>, j: nat) returns (k: nat)
    requires IsHistory(c, ms, es) && j < |ms| && In(ms[j].disk, Committed)
    ensures k < j && IsCommit(es[k]) && ms[k].world.site.confirmed == Some(es[k].t)
    ensures ms[k].world.lock.Helper? && ms[k].world.lock.token == es[k].t
    ensures |ms[k].world.sessions| == |ms[j].world.sessions|
  {
    hide Safe, Happens, IsCommit, Begins;
    BeginIsNotCommitted(c, ms, es, j);
    SafeAround(c, ms, es, j - 1);
    SessionStep(c, es[j - 1], ms[j - 1], ms[j]);
    if In(ms[j - 1].disk, Committed) {
      k := CommittedWhen(c, ms, es, j - 1);
    } else {
      CommitStep(c, es[j - 1], ms[j - 1], ms[j]);
      k := j - 1;
    }
  }

  /** A committed update was acknowledged by a process that held the token of the helper that
      committed it: it found its token in the plan on disk, then the executable matching its signed
      hash, then the journal awaiting confirmation with every item installed, and then wrote its
      token into the marker that the helper compared with its own. Unless a helper of an earlier
      transaction has taken the lock, that is the token of this very transaction, and all of it
      happened in this transaction. */
  lemma CommittedWasAcknowledged(c: Setup, ms: seq<Moment>, es: seq<Event>, j: nat)
    returns (n: nat, g: nat, h: nat, i: nat, w: nat, k: nat)
    requires IsHistory(c, ms, es) && j < |ms| && In(ms[j].disk, Committed)
    ensures g < h < i < w < k < j && IsCommit(es[k])
    ensures es[g] == Confirm(ChecksToken(es[k].t)) && es[h] == Confirm(ChecksHash(n))
    ensures es[i] == Confirm(ChecksState(n)) && es[w] == Confirm(WritesMarker(n))
    ensures ms[g].world.site.plan == Some(es[k].t)
    ensures HashMatches(c.plan, c.executable, At(ms[h].disk.live, FilePath(c.executable)))
    ensures In(ms[i].disk, AwaitingConfirmation) && AllNew(c.plan, ms[i].disk.live)
    ensures |ms[g].world.confirmers| == n < |ms[w].world.confirmers|
    ensures ms[w].world.confirmers[n] == Confirmer(es[k].t, Entitled)
    ensures ms[k].world.site.confirmed == Some(es[k].t)
    ensures !ms[k].world.past.stale ==>
              es[k].t == Last(ms[j].world) && |ms[g].world.sessions| == |ms[j].world.sessions|
  {
    k := CommittedWhen(c, ms, es, j);
    w := MarkedWhen(c, ms, es, k);
    n := es[w].k.n;
    i := EntitledWhen(c, ms, es, w, n);
    h := HashedWhen(c, ms, es, i, n);
    g := MatchedWhen(c, ms, es, h, n);
    HistoryIsSafe(c, ms, es, i);
    HistoryIsSafe(c, ms, es, k);
    HistoryIsSafe(c, ms, es, g);
  }
}

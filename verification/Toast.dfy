/** When the operator is told that nudges to a session fail, and that they work again. */
module Toast {
  import opened Wrappers

  const NOTIFY_COOLDOWN_SECS := 900
  const U32_MAX := 0xFFFF_FFFF

  datatype Outcome = Outcome(ok: bool, at: nat)

  datatype Notice = Silent | Failing | Recovered

  /** What is kept of a session's outcomes. */
  datatype Obs = Obs(injectsOk: nat, injectsFailed: nat, consecutiveFailures: nat, lastNotifiedAt: Option<nat>, lastInject: Option<Outcome>)

  const NewObs := Obs(0, 0, 0, None, None)

  function Elapsed(since: nat, now: nat): nat { if now >= since then now - since else 0 }

  function DecideNotice(consecutiveFailures: nat, lastNotifiedAt: Option<nat>, now: nat): Notice {
    if consecutiveFailures == 0 then Silent
    else
      match lastNotifiedAt
      case None => Failing
      case Some(since) => if Elapsed(since, now) >= NOTIFY_COOLDOWN_SECS then Failing else Silent
  }

  function Bump(n: nat): nat { if n >= U32_MAX then U32_MAX else n + 1 }

  function Noted(o: Obs, out: Outcome): (Obs, Notice) {
    if out.ok then
      (Obs(o.injectsOk + 1, o.injectsFailed, 0, None, Some(out)),
       if o.consecutiveFailures > 0 && o.lastNotifiedAt.Some? then Recovered else Silent)
    else
      var failures := Bump(o.consecutiveFailures);
      var notice := DecideNotice(failures, o.lastNotifiedAt, out.at);
      (Obs(o.injectsOk, o.injectsFailed + 1, failures, if notice != Silent then Some(out.at) else o.lastNotifiedAt, Some(out)), notice)
  }

  class SessionObs {
    var injectsOk: nat
    var injectsFailed: nat
    var consecutiveFailures: nat
    var lastNotifiedAt: Option<nat>
    var lastInject: Option<Outcome>

    constructor ()
      ensures Contents() == NewObs
    {
      injectsOk, injectsFailed, consecutiveFailures, lastNotifiedAt, lastInject := 0, 0, 0, None, None;
    }

    ghost function Contents(): Obs
      reads this
    {
      Obs(injectsOk, injectsFailed, consecutiveFailures, lastNotifiedAt, lastInject)
    }

    method NoteInject(outcome: Outcome) returns (notice: Notice)
      modifies this
      ensures (Contents(), notice) == Noted(old(Contents()), outcome)
    {
      lastInject := Some(outcome);
      if outcome.ok {
        injectsOk := injectsOk + 1;
        var wasFailing := consecutiveFailures > 0;
        consecutiveFailures := 0;
        notice := if wasFailing && lastNotifiedAt.Some? then Recovered else Silent;
        lastNotifiedAt := None;
        return;
      }
      injectsFailed := injectsFailed + 1;
      consecutiveFailures := Bump(consecutiveFailures);
      notice := DecideNotice(consecutiveFailures, lastNotifiedAt, outcome.at);
      if notice != Silent {
        lastNotifiedAt := Some(outcome.at);
      }
    }
  }

  // ---------------------------------------------------------------- whole runs

  function After(os: seq<Outcome>): Obs {
    if os == [] then NewObs else Noted(After(os[..|os| - 1]), os[|os| - 1]).0
  }

  /** The notice given at the `i`-th outcome. */
  function NoticeAt(os: seq<Outcome>, i: nat): Notice
    requires i < |os|
  {
    Noted(After(os[..i]), os[i]).1
  }

  /** The length of the failing run that `os` ends in. */
  function Trailing(os: seq<Outcome>): (n: nat)
    ensures n <= |os|
    ensures forall i :: |os| - n <= i < |os| ==> !os[i].ok
    ensures n < |os| ==> os[|os| - n - 1].ok
  {
    if os == [] || os[|os| - 1].ok then 0 else 1 + Trailing(os[..|os| - 1])
  }

  function CountOk(os: seq<Outcome>): nat {
    if os == [] then 0 else CountOk(os[..|os| - 1]) + if os[|os| - 1].ok then 1 else 0
  }

  /** The last toast of the failing run that `os` ends in. */
  predicate LastToast(os: seq<Outcome>, j: int) {
    && |os| - Trailing(os) <= j < |os|
    && NoticeAt(os, j) == Failing
    && forall k :: j < k < |os| ==> NoticeAt(os, k) == Silent
  }

  lemma NoticeAtPrefix(os: seq<Outcome>, n: nat, i: nat)
    requires i < n <= |os|
    ensures NoticeAt(os[..n], i) == NoticeAt(os, i)
  {
    assert os[..n][..i] == os[..i];
  }

  /** Every outcome is counted once; the failure count is the length of the run the outcomes end in,
      as far as 32 bits go; a time is remembered exactly while failing, and it is that of the run's
      last toast. */
  lemma {:induction false} ObsIs(os: seq<Outcome>)
    ensures var o := After(os);
            && o.injectsOk == CountOk(os) && o.injectsOk + o.injectsFailed == |os|
            && o.consecutiveFailures == (if Trailing(os) < 0x1_0000_0000 then Trailing(os) else 0xFFFF_FFFF)
            && o.lastInject == (if os == [] then None else Some(os[|os| - 1]))
            && (o.lastNotifiedAt.Some? <==> Trailing(os) > 0)
            && (Trailing(os) > 0 ==> exists j :: LastToast(os, j) && o.lastNotifiedAt == Some(os[j].at))
  {
    if os != [] {
      hide DecideNotice;
      var n := |os| - 1;
      ObsIs(os[..n]);
      if !os[n].ok {
        ToastMoves(os, n);
      }
    }
  }

  lemma ToastMoves(os: seq<Outcome>, n: nat)
    requires n == |os| - 1 && !os[n].ok
    requires var o := After(os[..n]);
             && (o.lastNotifiedAt.Some? <==> Trailing(os[..n]) > 0)
             && (Trailing(os[..n]) > 0 ==> exists j :: LastToast(os[..n], j) && o.lastNotifiedAt == Some(os[..n][j].at))
    ensures exists j :: LastToast(os, j) && After(os).lastNotifiedAt == Some(os[j].at)
  {
    assert NoticeAt(os, n) != Recovered;
    if NoticeAt(os, n) == Failing {
      assert LastToast(os, n);
    } else {
      var j :| LastToast(os[..n], j) && After(os[..n]).lastNotifiedAt == Some(os[..n][j].at);
      LastToastStays(os, n, j);
    }
  }

  lemma LastToastStays(os: seq<Outcome>, n: nat, j: int)
    requires n == |os| - 1 && !os[n].ok && NoticeAt(os, n) == Silent && LastToast(os[..n], j)
    ensures LastToast(os, j)
  {
    forall k | 0 <= k < n ensures NoticeAt(os[..n], k) == NoticeAt(os, k) {
      NoticeAtPrefix(os, n, k);
    }
    hide NoticeAt, After, Noted;
  }

  /** When the operator is told what. Failing: at the first failure of a run, and at a later one
      when the run's last toast is 900 seconds old. Recovered: at a success right after a failure,
      so once for each run that a success ends. */
  lemma NoticeIff(os: seq<Outcome>, i: nat)
    requires i < |os|
    ensures var run := Trailing(os[..i]);
            NoticeAt(os, i) == Failing <==>
              && !os[i].ok
              && (run == 0 || exists j :: LastToast(os[..i], j) && Elapsed(os[j].at, os[i].at) >= 900)
    ensures NoticeAt(os, i) == Recovered <==> os[i].ok && i > 0 && !os[i - 1].ok
  {
    hide LastToast;
    ObsIs(os[..i]);
    forall j, k | LastToast(os[..i], j) && LastToast(os[..i], k) ensures j == k && 0 <= j < i {
      OneLastToast(os[..i], j, k);
    }
  }

  lemma OneLastToast(os: seq<Outcome>, j: int, k: int)
    requires LastToast(os, j) && LastToast(os, k)
    ensures j == k && 0 <= j < |os|
  {
  }

  ghost predicate NonDecreasing(os: seq<Outcome>) {
    forall i, j :: 0 <= i < j < |os| ==> os[i].at <= os[j].at
  }

  predicate SameRun(os: seq<Outcome>, j: nat, k: nat)
    requires j < k < |os|
  {
    j >= k - Trailing(os[..k])
  }

  /** Within one failing run toasts are at least 900 seconds apart. */
  lemma ToastGaps(os: seq<Outcome>, j: nat, k: nat)
    requires NonDecreasing(os) && j < k < |os| && SameRun(os, j, k)
    requires NoticeAt(os, j) == Failing && NoticeAt(os, k) == Failing
    ensures os[k].at - os[j].at >= 900
  {
    NoticeIff(os, k);
    var last :| LastToast(os[..k], last) && Elapsed(os[last].at, os[k].at) >= NOTIFY_COOLDOWN_SECS;
    NoticeAtPrefix(os, k, j);
    assert os[j].at <= os[last].at by {
      hide After, Noted;
      assert j <= last;
    }
  }

  /** And the operator is never left longer without one: at any failure the run's last toast is
      less than 900 seconds old, or is this very outcome. */
  lemma NeverSilentForLong(os: seq<Outcome>)
    requires Trailing(os) > 0
    ensures exists j :: LastToast(os, j) && (j == |os| - 1 || Elapsed(os[j].at, os[|os| - 1].at) < 900)
  {
    var n := |os| - 1;
    ObsIs(os[..n]);
    ToastMoves(os, n);
    var j :| LastToast(os, j) && After(os).lastNotifiedAt == Some(os[j].at);
    if j < n {
      assert NoticeAt(os, n) == Silent;
    }
  }

  /** The cooldown is one run's: a session that fails and recovers by turns is toasted about at
      every single outcome. */
  lemma {:induction false} FlappingIsNeverSilent(os: seq<Outcome>, i: nat)
    requires forall k :: 0 <= k < |os| ==> os[k].ok == (k % 2 == 1)
    requires i < |os|
    ensures NoticeAt(os, i) == if i % 2 == 0 then Failing else Recovered
  {
    NoticeIff(os, i);
    if i % 2 == 0 {
      assert Trailing(os[..i]) == 0;
    }
  }
}

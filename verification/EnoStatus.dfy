/**
 The verdict on a service after its checker tasks (checker_runner/runners/eno.py:169-205).

 Results arrive in an arbitrary order and are folded into one status and one message for each
 task chain.
 */
module EnoStatus {
  import opened Prelude

  datatype Result = OK | MUMBLE | OFFLINE | INTERNAL_ERROR

  datatype Status = Success | Recovering | Mumble | Offline | Crashed | TimedOut

  /** A task and its outcome; `current` says that the task is about the current tick. */
  datatype Report = Report(current: bool, chain: string, result: Result, message: Option<string>)

  datatype State = State(status: Status, messages: map<string, string>, recovery: map<string, string>)

  const Fresh := State(Success, map[], map[])

  // ----- One result -----

  predicate HasMessage(r: Report) {
    r.message.Some? && r.message.value != ""
  }

  /** `_task_chain_msg_write`: the first message stays, unless an OFFLINE one comes. */
  function WriteMessage(messages: map<string, string>, r: Report): map<string, string>
    requires HasMessage(r)
  {
    if r.result == OFFLINE || r.chain !in messages then messages[r.chain := r.message.value] else messages
  }

  function NextStatus(s: Status, r: Report): Status {
    if r.result == INTERNAL_ERROR then
      if r.message == Some("TIMEOUT") then TimedOut else Crashed
    else if s in {Success, Recovering} && r.result != OK && !r.current then Recovering
    else if s in {Success, Recovering} && r.result == MUMBLE then Mumble
    else if s in {Success, Recovering, Mumble} && r.result == OFFLINE then Offline
    else s
  }

  function Handle(s: State, r: Report): State {
    State(NextStatus(s.status, r),
          if HasMessage(r) && r.current then WriteMessage(s.messages, r) else s.messages,
          if HasMessage(r) && !r.current then WriteMessage(s.recovery, r) else s.recovery)
  }

  function Fold(rs: seq<Report>): State {
    if rs == [] then Fresh else Handle(Fold(rs[..|rs| - 1]), rs[|rs| - 1])
  }

  // ----- The verdict, for every arrival order -----

  function Severity(s: Status): nat {
    match s
    case Success => 0
    case Recovering => 1
    case Mumble => 2
    case Offline => 3
    case Crashed => 4
    case TimedOut => 4
  }

  lemma {:induction false} SeverityNeverDrops(rs: seq<Report>, more: seq<Report>)
    ensures Severity(Fold(rs).status) <= Severity(Fold(rs + more).status)
  {
    if more == [] {
      assert rs + more == rs;
    } else {
      var n := |more| - 1;
      SeverityNeverDrops(rs, more[..n]);
      assert (rs + more)[..|rs| + n] == rs + more[..n];
    }
  }

  /** Something of the current tick does not work. */
  predicate FailsNow(r: Report) { r.current && r.result in {MUMBLE, OFFLINE} }

  ghost predicate AnyInternal(rs: seq<Report>) { exists r :: r in rs && r.result == INTERNAL_ERROR }

  ghost predicate AnyFailure(rs: seq<Report>) { exists r :: r in rs && r.result != OK }

  ghost predicate AnyFailsNow(rs: seq<Report>) { exists r :: r in rs && FailsNow(r) }

  /** Offline now, or offline at all after a failure of the current tick. */
  ghost predicate SeenOffline(rs: seq<Report>) {
    exists j :: 0 <= j < |rs| && OfflineAt(rs, j)
  }

  ghost predicate OfflineAt(rs: seq<Report>, j: nat)
    requires j < |rs|
  {
    rs[j].result == OFFLINE && (rs[j].current || AnyFailsNow(rs[..j]))
  }

  lemma AnyExtend(rest: seq<Report>, r: Report)
    ensures AnyInternal(rest + [r]) <==> AnyInternal(rest) || r.result == INTERNAL_ERROR
    ensures AnyFailure(rest + [r]) <==> AnyFailure(rest) || r.result != OK
    ensures AnyFailsNow(rest + [r]) <==> AnyFailsNow(rest) || FailsNow(r)
  {
    var rs := rest + [r];
    forall x ensures x in rs <==> x == r || x in rest {}
    assert r in rs;
    if AnyInternal(rest) { var x :| x in rest && x.result == INTERNAL_ERROR; assert x in rs; }
    if AnyFailure(rest) { var x :| x in rest && x.result != OK; assert x in rs; }
    if AnyFailsNow(rest) { var x :| x in rest && FailsNow(x); assert x in rs; }
  }

  lemma SeenOfflineExtend(rest: seq<Report>, r: Report)
    ensures SeenOffline(rest + [r]) <==> SeenOffline(rest) || (r.result == OFFLINE && (r.current || AnyFailsNow(rest)))
  {
    var rs := rest + [r];
    assert rs[..|rest|] == rest;
    forall j | 0 <= j < |rest| ensures OfflineAt(rs, j) <==> OfflineAt(rest, j) {
      assert rs[..j] == rest[..j];
    }
    assert OfflineAt(rs, |rest|) <==> r.result == OFFLINE && (r.current || AnyFailsNow(rest));
  }

  /** What a status says about a failure, an internal error, a failure of the current tick, and OFFLINE since. */
  predicate Describes(s: Status, failure: bool, internal: bool, now: bool, offline: bool) {
    && (s == Success <==> !failure)
    && (s == Recovering <==> failure && !internal && !now)
    && (s in {Crashed, TimedOut} <==> internal)
    && (s == Mumble <==> now && !internal && !offline)
    && (s == Offline <==> now && !internal && offline)
    && (internal || now ==> failure) && (offline ==> now)
  }

  lemma NextDescribes(s: Status, r: Report, failure: bool, internal: bool, now: bool, offline: bool)
    requires Describes(s, failure, internal, now, offline)
    ensures Describes(NextStatus(s, r), failure || r.result != OK, internal || r.result == INTERNAL_ERROR,
                      now || FailsNow(r), offline || (r.result == OFFLINE && (r.current || now)))
  {}

  lemma {:induction false} StatusDescribes(rs: seq<Report>)
    ensures Describes(Fold(rs).status, AnyFailure(rs), AnyInternal(rs), AnyFailsNow(rs), SeenOffline(rs))
  {
    hide Describes, AnyFailure, AnyInternal, AnyFailsNow, SeenOffline, NextStatus, FailsNow;
    if rs != [] {
      var rest, r := rs[..|rs| - 1], rs[|rs| - 1];
      assert rs == rest + [r];
      StatusDescribes(rest);
      AnyExtend(rest, r);
      SeenOfflineExtend(rest, r);
      NextDescribes(Fold(rest).status, r, AnyFailure(rest), AnyInternal(rest), AnyFailsNow(rest), SeenOffline(rest));
    } else {
      NothingReported();
    }
  }

  lemma NothingReported()
    ensures Describes(Fold([]).status, AnyFailure([]), AnyInternal([]), AnyFailsNow([]), SeenOffline([]))
  {}

  /** What the final status says about the results, whatever their order. */
  lemma FinalStatus(rs: seq<Report>)
    ensures Fold(rs).status == Success <==> !AnyFailure(rs)
    ensures Fold(rs).status == Recovering <==> AnyFailure(rs) && !AnyInternal(rs) && !AnyFailsNow(rs)
    ensures Fold(rs).status in {Crashed, TimedOut} <==> AnyInternal(rs)
    ensures Fold(rs).status == Mumble <==> AnyFailsNow(rs) && !AnyInternal(rs) && !SeenOffline(rs)
    ensures Fold(rs).status == Offline <==> AnyFailsNow(rs) && !AnyInternal(rs) && SeenOffline(rs)
  {
    hide Fold, AnyFailure, AnyInternal, AnyFailsNow, SeenOffline;
    StatusDescribes(rs);
  }

  // ----- Internal errors -----

  /** Report j is the last internal error. */
  ghost predicate LastInternal(rs: seq<Report>, j: nat)
    requires j < |rs|
  {
    rs[j].result == INTERNAL_ERROR && forall k :: j < k < |rs| ==> rs[k].result != INTERNAL_ERROR
  }

  /** The last internal error says TIMEOUT, and nothing else. */
  ghost predicate EndsInTimeout(rs: seq<Report>) {
    exists j :: 0 <= j < |rs| && LastInternal(rs, j) && rs[j].message == Some("TIMEOUT")
  }

  ghost predicate EndsInCrash(rs: seq<Report>) {
    exists j :: 0 <= j < |rs| && LastInternal(rs, j) && rs[j].message != Some("TIMEOUT")
  }

  lemma LastInternalExtends(rest: seq<Report>, r: Report)
    ensures EndsInTimeout(rest + [r]) <==>
      if r.result == INTERNAL_ERROR then r.message == Some("TIMEOUT") else EndsInTimeout(rest)
    ensures EndsInCrash(rest + [r]) <==>
      if r.result == INTERNAL_ERROR then r.message != Some("TIMEOUT") else EndsInCrash(rest)
  {
    var rs := rest + [r];
    assert rs[|rest|] == r;
    if r.result == INTERNAL_ERROR {
      assert LastInternal(rs, |rest|);
      forall j | 0 <= j < |rest| ensures !LastInternal(rs, j) {}
    } else {
      forall j | 0 <= j < |rest| ensures LastInternal(rs, j) <==> LastInternal(rest, j) {
        forall k | j < k < |rest| ensures rs[k] == rest[k] {}
        if LastInternal(rs, j) {
          forall k | j < k < |rest| ensures rest[k].result != INTERNAL_ERROR { assert rs[k] == rest[k]; }
        }
      }
    }
  }

  /** Which internal error the final status names: that of the last one. */
  lemma {:induction false} InternalStatus(rs: seq<Report>)
    ensures Fold(rs).status == TimedOut <==> EndsInTimeout(rs)
    ensures Fold(rs).status == Crashed <==> EndsInCrash(rs)
  {
    hide EndsInTimeout, EndsInCrash;
    if rs != [] {
      var rest, r := rs[..|rs| - 1], rs[|rs| - 1];
      assert rs == rest + [r];
      InternalStatus(rest);
      LastInternalExtends(rest, r);
    } else {
      assert !EndsInTimeout([]) && !EndsInCrash([]) by { NoInternalYet(); }
    }
  }

  lemma NoInternalYet()
    ensures !EndsInTimeout([]) && !EndsInCrash([])
  {}

  /** If all internal errors are timeouts, or none is, their order does not matter. */
  lemma InternalStatusOfOneKind(rs: seq<Report>)
    ensures AnyInternal(rs) && (forall r :: r in rs && r.result == INTERNAL_ERROR ==> r.message == Some("TIMEOUT")) ==>
      Fold(rs).status == TimedOut
    ensures AnyInternal(rs) && (forall r :: r in rs && r.result == INTERNAL_ERROR ==> r.message != Some("TIMEOUT")) ==>
      Fold(rs).status == Crashed
  {
    hide Fold;
    StatusDescribes(rs);
    InternalStatus(rs);
    if EndsInTimeout(rs) {
      var j :| 0 <= j < |rs| && LastInternal(rs, j) && rs[j].message == Some("TIMEOUT");
      assert rs[j] in rs;
    }
    if EndsInCrash(rs) {
      var j :| 0 <= j < |rs| && LastInternal(rs, j) && rs[j].message != Some("TIMEOUT");
      assert rs[j] in rs;
    }
  }

  /** The kinds of verdict that do not depend on the order of arrival. */
  datatype Verdict = Fine | OnlyThePast | Broken | OurFault

  function VerdictOf(s: Status): Verdict {
    match s
    case Success => Fine
    case Recovering => OnlyThePast
    case Mumble => Broken
    case Offline => Broken
    case Crashed => OurFault
    case TimedOut => OurFault
  }

  lemma OrderDoesNotMatter(rs: seq<Report>, other: seq<Report>)
    requires multiset(rs) == multiset(other)
    ensures VerdictOf(Fold(rs).status) == VerdictOf(Fold(other).status)
  {
    forall r ensures r in rs <==> r in other {
      assert r in rs <==> r in multiset(rs);
      assert r in other <==> r in multiset(other);
    }
    FinalStatus(rs);
    FinalStatus(other);
  }

  // ----- Messages -----

  /** The message a chain ends up with: that of its last OFFLINE result, or else its first. */
  function ChainMessage(rs: seq<Report>, chain: string, current: bool): Option<string> {
    if rs == [] then None
    else
      var r := rs[|rs| - 1];
      var before := ChainMessage(rs[..|rs| - 1], chain, current);
      if HasMessage(r) && r.chain == chain && r.current == current && (r.result == OFFLINE || before.None?)
      then r.message else before
  }

  ghost predicate Speaks(r: Report, chain: string, current: bool) {
    r.message.Some? && r.message.value != "" && r.chain == chain && r.current == current
  }

  lemma {:induction false} FoldKeepsChainMessages(rs: seq<Report>, chain: string)
    ensures chain in Fold(rs).messages <==> ChainMessage(rs, chain, true).Some?
    ensures chain in Fold(rs).messages ==> ChainMessage(rs, chain, true) == Some(Fold(rs).messages[chain])
    ensures chain in Fold(rs).recovery <==> ChainMessage(rs, chain, false).Some?
    ensures chain in Fold(rs).recovery ==> ChainMessage(rs, chain, false) == Some(Fold(rs).recovery[chain])
  {
    if rs != [] { FoldKeepsChainMessages(rs[..|rs| - 1], chain); }
  }

  /** An OFFLINE message of the chain, if there is one, wins, and the last one of them. */
  lemma {:induction false} OfflineMessageWins(rs: seq<Report>, chain: string, current: bool, i: nat)
    requires i < |rs| && Speaks(rs[i], chain, current)
    requires forall j :: i < j < |rs| && Speaks(rs[j], chain, current) ==> rs[j].result != OFFLINE
    requires rs[i].result == OFFLINE
      || forall j :: 0 <= j < |rs| && Speaks(rs[j], chain, current) ==> i <= j && rs[j].result != OFFLINE
    ensures ChainMessage(rs, chain, current) == rs[i].message
  {
    var n := |rs| - 1;
    if i < n {
      OfflineMessageWins(rs[..n], chain, current, i);
    } else if rs[i].result != OFFLINE {
      NobodySpoke(rs[..n], chain, current);
    }
  }

  lemma {:induction false} NobodySpoke(rs: seq<Report>, chain: string, current: bool)
    requires forall j :: 0 <= j < |rs| ==> !Speaks(rs[j], chain, current)
    ensures ChainMessage(rs, chain, current) == None
  {
    if rs != [] {
      NobodySpoke(rs[..|rs| - 1], chain, current);
      assert !Speaks(rs[|rs| - 1], chain, current);
    }
  }

  // ----- The runner object -----

  class EnoCheckerRunner {
    var status: Status
    var messages: map<string, string>
    var recoveryMessages: map<string, string>

    ghost function View(): State
      reads this
    {
      State(status, messages, recoveryMessages)
    }

    constructor ()
      ensures View() == Fresh
    {
      status, messages, recoveryMessages := Success, map[], map[];
    }

    method Reset()
      modifies this
      ensures View() == Fresh
    {
      status, messages, recoveryMessages := Success, map[], map[];
    }

    method HandleResult(r: Report)
      modifies this
      ensures View() == Handle(old(View()), r)
    {
      if r.message.Some? && r.message.value != "" {
        if r.current {
          messages := messages[r.chain :=
            if r.result != OFFLINE && r.chain in messages then messages[r.chain] else r.message.value];
        } else {
          recoveryMessages := recoveryMessages[r.chain :=
            if r.result != OFFLINE && r.chain in recoveryMessages then recoveryMessages[r.chain] else r.message.value];
        }
      }
      if r.result == INTERNAL_ERROR {
        status := if r.message != Some("TIMEOUT") then Crashed else TimedOut;
      } else if (status == Success || status == Recovering) && r.result != OK && !r.current {
        status := Recovering;
      } else if (status == Success || status == Recovering) && r.result == MUMBLE {
        status := Mumble;
      } else if (status == Success || status == Recovering || status == Mumble) && r.result == OFFLINE {
        status := Offline;
      }
    }

    /** All results of one execution, in the order in which they arrive. */
    method HandleAll(rs: seq<Report>)
      modifies this
      ensures View() == Fold(rs)
    {
      Reset();
      for i := 0 to |rs|
        invariant View() == Fold(rs[..i])
      {
        HandleResult(rs[i]);
        assert rs[..i + 1][..i] == rs[..i];
      }
      assert rs[..|rs|] == rs;
    }
  }
}

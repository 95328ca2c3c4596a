/** Ordered shutdown within one deadline: `stopAll` of packages/bootstrap/src/service.ts. */
module StopAll {
  /** Names are unique within a service; a resource is referred to by its registration index. */
  datatype Resource = Resource(name: string, stopOrder: real)

  // ----- The order -----

  predicate Before(list: seq<Resource>, i: nat, j: nat)
    requires i < |list| && j < |list|
  {
    list[i].stopOrder < list[j].stopOrder || (list[i].stopOrder == list[j].stopOrder && i > j)
  }

  predicate Indices(list: seq<Resource>, s: seq<nat>) {
    forall p :: 0 <= p < |s| ==> s[p] < |list|
  }

  predicate Sorted(list: seq<Resource>, s: seq<nat>)
    requires Indices(list, s)
  {
    forall p, q :: 0 <= p < q < |s| ==> Before(list, s[p], s[q])
  }

  function Insert(list: seq<Resource>, i: nat, s: seq<nat>): (r: seq<nat>)
    requires i < |list| && Indices(list, s)
    ensures Indices(list, r) && |r| == |s| + 1
  {
    if s == [] || list[i].stopOrder <= list[s[0]].stopOrder then [i] + s else [s[0]] + Insert(list, i, s[1..])
  }

  /** The first `n` resources in the order in which they stop. */
  function StopOrder(list: seq<Resource>, n: nat): (r: seq<nat>)
    requires n <= |list|
    ensures Indices(list, r) && |r| == n
  {
    if n == 0 then [] else Insert(list, n - 1, StopOrder(list, n - 1))
  }

  /** `s` lists each of the first `n` resources, by stop order ascending and by registration descending. */
  ghost predicate IsStopOrder(list: seq<Resource>, n: nat, s: seq<nat>)
    requires n <= |list|
  {
    Indices(list, s) && Sorted(list, s) && forall i :: i in s <==> 0 <= i < n
  }

  lemma HeadIsFirst(list: seq<Resource>, t: seq<nat>, x: nat)
    requires Indices(list, t) && Sorted(list, t) && x in t
    ensures x < |list| && (x == t[0] || Before(list, t[0], x))
  {
  }

  lemma ConsSorted(list: seq<Resource>, i: nat, s: seq<nat>)
    requires i < |list| && Indices(list, s) && Sorted(list, s)
    requires forall j :: j in s ==> j < |list| && Before(list, i, j)
    ensures Sorted(list, [i] + s)
  {
  }

  lemma {:induction false} InsertKeepsSorted(list: seq<Resource>, i: nat, s: seq<nat>)
    requires i < |list| && Indices(list, s) && Sorted(list, s) && forall j :: j in s ==> j < i
    ensures Sorted(list, Insert(list, i, s))
    ensures forall j :: j in Insert(list, i, s) <==> j == i || j in s
  {
    if s == [] || list[i].stopOrder <= list[s[0]].stopOrder {
      forall j | j in s
        ensures Before(list, i, j)
      {
        HeadIsFirst(list, s, j);
      }
      ConsSorted(list, i, s);
    } else {
      assert forall j :: j in s <==> j == s[0] || j in s[1..];
      InsertKeepsSorted(list, i, s[1..]);
      forall j | j in s[1..]
        ensures Before(list, s[0], j)
      {
        var q :| 0 <= q < |s[1..]| && s[1..][q] == j;
        assert s[q + 1] == j;
      }
      ConsSorted(list, s[0], Insert(list, i, s[1..]));
    }
  }

  lemma {:induction false} StopOrderIsRight(list: seq<Resource>, n: nat)
    requires n <= |list|
    ensures IsStopOrder(list, n, StopOrder(list, n))
  {
    if n > 0 {
      StopOrderIsRight(list, n - 1);
      InsertKeepsSorted(list, n - 1, StopOrder(list, n - 1));
    }
  }

  lemma HeadIsElement(t: seq<nat>)
    ensures t == [] || t[0] in t
  {
  }

  lemma {:induction false} SameElementsSameOrder(list: seq<Resource>, s: seq<nat>, t: seq<nat>)
    requires Indices(list, s) && Indices(list, t) && Sorted(list, s) && Sorted(list, t)
    requires forall i :: i in s <==> i in t
    ensures s == t
  {
    HeadIsElement(t);
    if s != [] {
      assert s[0] in t && t != [] && t[0] in s;
      HeadIsFirst(list, t, s[0]);
      HeadIsFirst(list, s, t[0]);
      assert s[0] == t[0];
      forall i
        ensures i in s[1..] <==> i in t[1..]
      {
        assert i in s[1..] <==> i in s && i != s[0];
        assert i in t[1..] <==> i in t && i != t[0];
      }
      SameElementsSameOrder(list, s[1..], t[1..]);
    }
  }

  /** There is no other such order, so any correct sort gives this one. */
  lemma StopOrderIsUnique(list: seq<Resource>, n: nat, s: seq<nat>)
    requires n <= |list|
    ensures IsStopOrder(list, n, s) <==> s == StopOrder(list, n)
  {
    StopOrderIsRight(list, n);
    if IsStopOrder(list, n, s) {
      SameElementsSameOrder(list, s, StopOrder(list, n));
    }
  }

  // ----- The run -----

  /** How the race for one resource ends, and whether the deadline has passed when the loop goes on. */
  datatype Turn = Returned(late: bool) | Threw(late: bool) | DeadlineFirst

  /** `called` is how many resources had their `stop` called. */
  datatype Progress =
    | InFlight(at: nat, failed: seq<nat>)
    | Finished(called: nat, failed: seq<nat>, pending: seq<nat>)

  function GoOn(order: seq<nat>, at: nat, failed: seq<nat>, late: bool): Progress
    requires at <= |order|
  {
    if at == |order| then Finished(at, failed, [])
    else if late then Finished(at, failed, order[at..])
    else InFlight(at, failed)
  }

  function Advance(order: seq<nat>, p: Progress, turn: Turn): Progress
    requires p.InFlight? && p.at < |order|
  {
    match turn
    case DeadlineFirst => Finished(p.at + 1, p.failed, order[p.at..])
    case Returned(late) => GoOn(order, p.at + 1, p.failed, late)
    case Threw(late) => GoOn(order, p.at + 1, p.failed + [order[p.at]], late)
  }

  function Called(p: Progress): nat {
    if p.InFlight? then p.at + 1 else p.called
  }

  /** `s` can be had from `t` by leaving elements out. */
  predicate Subsequence(s: seq<nat>, t: seq<nat>) {
    s == [] || (t != [] && (if s[|s| - 1] == t[|t| - 1] then Subsequence(s[..|s| - 1], t[..|t| - 1])
                            else Subsequence(s, t[..|t| - 1])))
  }

  lemma {:induction false} SubsequenceExtends(s: seq<nat>, t: seq<nat>, x: nat)
    requires Subsequence(s, t) && x !in s
    ensures Subsequence(s, t + [x]) && Subsequence(s + [x], t + [x])
  {
  }

  lemma {:induction false} SubsequenceMembers(s: seq<nat>, t: seq<nat>, x: nat)
    requires Subsequence(s, t) && x in s
    ensures x in t
  {
    var shorter := t[..|t| - 1];
    assert forall y :: y in shorter ==> y in t;
    if s[|s| - 1] == t[|t| - 1] {
      if x != s[|s| - 1] {
        SubsequenceMembers(s[..|s| - 1], shorter, x);
      }
    } else {
      SubsequenceMembers(s, shorter, x);
    }
  }

  predicate NoDuplicates(s: seq<nat>) {
    forall p, q :: 0 <= p < q < |s| ==> s[p] != s[q]
  }

  /**
   The order is what settled, in front of what is pending; `failed` is picked from what settled; and at most the one
   resource at the deadline was called without settling.
   */
  ghost predicate Consistent(order: seq<nat>, p: Progress) {
    match p
    case InFlight(at, failed) => at < |order| && Subsequence(failed, order[..at])
    case Finished(called, failed, pending) =>
      && |pending| <= |order|
      && order == order[..|order| - |pending|] + pending
      && Subsequence(failed, order[..|order| - |pending|])
      && |order| - |pending| <= called <= |order| - |pending| + 1 && called <= |order|
  }

  lemma BeginConsistent(order: seq<nat>, late: bool)
    ensures Consistent(order, GoOn(order, 0, [], late))
  {
  }

  lemma GoOnConsistent(order: seq<nat>, at: nat, failed: seq<nat>, late: bool)
    requires at <= |order| && Subsequence(failed, order[..at])
    ensures Consistent(order, GoOn(order, at, failed, late))
    ensures at <= Called(GoOn(order, at, failed, late)) <= at + 1
  {
  }

  lemma NotYetFailed(order: seq<nat>, at: nat, failed: seq<nat>)
    requires NoDuplicates(order) && at < |order| && Subsequence(failed, order[..at])
    ensures order[at] !in failed
  {
    if order[at] in failed {
      SubsequenceMembers(failed, order[..at], order[at]);
    }
  }

  lemma SettledConsistent(order: seq<nat>, at: nat, failed: seq<nat>, threw: bool, late: bool)
    requires at < |order| && Subsequence(failed, order[..at]) && order[at] !in failed
    ensures Consistent(order, GoOn(order, at + 1, if threw then failed + [order[at]] else failed, late))
  {
    assert order[..at + 1] == order[..at] + [order[at]];
    SubsequenceExtends(failed, order[..at], order[at]);
    GoOnConsistent(order, at + 1, if threw then failed + [order[at]] else failed, late);
  }

  lemma AdvanceConsistent(order: seq<nat>, p: Progress, turn: Turn)
    requires NoDuplicates(order) && p.InFlight? && Consistent(order, p)
    ensures Consistent(order, Advance(order, p, turn))
    ensures Called(p) <= Called(Advance(order, p, turn)) <= Called(p) + 1
  {
    if turn.DeadlineFirst? {
      assert order == order[..p.at] + order[p.at..];
    } else {
      NotYetFailed(order, p.at, p.failed);
      SettledConsistent(order, p.at, p.failed, turn.Threw?, turn.late);
    }
  }

  function Drive(order: seq<nat>, p: Progress, turns: seq<Turn>): Progress
    requires p.InFlight? ==> p.at < |order|
    decreases |turns|
  {
    if turns == [] || p.Finished? then p else Drive(order, Advance(order, p, turns[0]), turns[1..])
  }

  /** The resources not settled before the deadline was noticed, if it was. */
  function Unsettled(order: seq<nat>, turns: seq<Turn>, late: bool): seq<nat>
    requires |order| == |turns|
  {
    if turns == [] || late || turns[0].DeadlineFirst? then order
    else Unsettled(order[1..], turns[1..], turns[0].late)
  }

  /** The resources settled before that with a throw. */
  function Throwers(order: seq<nat>, turns: seq<Turn>, late: bool): seq<nat>
    requires |order| == |turns|
  {
    if turns == [] || late || turns[0].DeadlineFirst? then []
    else (if turns[0].Threw? then [order[0]] else []) + Throwers(order[1..], turns[1..], turns[0].late)
  }

  lemma DriveStep(order: seq<nat>, at: nat, failed: seq<nat>, turns: seq<Turn>)
    requires at < |order| && turns != [] && !turns[0].DeadlineFirst?
    ensures Drive(order, GoOn(order, at, failed, false), turns)
            == Drive(order, GoOn(order, at + 1, failed + if turns[0].Threw? then [order[at]] else [], turns[0].late),
                     turns[1..])
  {
    assert failed + [] == failed;
  }

  /** Exactly those that threw before the deadline failed, and exactly those not settled by then are pending. */
  lemma {:induction false} OutcomeOfTurns(order: seq<nat>, at: nat, failed: seq<nat>, late: bool, turns: seq<Turn>)
    requires at <= |order| && |turns| == |order| - at
    ensures var p := Drive(order, GoOn(order, at, failed, late), turns);
            && p.Finished?
            && p.pending == Unsettled(order[at..], turns, late)
            && p.failed == failed + Throwers(order[at..], turns, late)
    decreases |turns|
  {
    if turns == [] || late || turns[0].DeadlineFirst? {
      assert failed + [] == failed;
    } else {
      var head := if turns[0].Threw? then [order[at]] else [];
      var rest := Throwers(order[at + 1..], turns[1..], turns[0].late);
      assert order[at..][1..] == order[at + 1..];
      DriveStep(order, at, failed, turns);
      OutcomeOfTurns(order, at + 1, failed + head, turns[0].late, turns[1..]);
      assert failed + (head + rest) == failed + head + rest;
    }
  }

  /** `stopAll` over the first `n` resources, given how each race it holds will end. */
  method StopAll(list: seq<Resource>, n: nat, budgetMs: int, turns: seq<Turn>)
    returns (timedOut: bool, failed: seq<nat>, pending: seq<nat>, ghost called: nat)
    requires n <= |list| && |turns| == n
    ensures Finished(called, failed, pending)
            == Drive(StopOrder(list, n), GoOn(StopOrder(list, n), 0, [], budgetMs <= 0), turns)
    ensures Consistent(StopOrder(list, n), Finished(called, failed, pending))
    ensures timedOut <==> pending != []
  {
    var ordered := StopOrder(list, n);
    StopOrderIsRight(list, n);
    BeginConsistent(ordered, budgetMs <= 0);
    var aborted := budgetMs <= 0;
    failed := [];
    pending := [];
    called := 0;
    ghost var first := GoOn(ordered, 0, [], aborted);
    assert turns[0..] == turns;
    for i := 0 to |ordered|
      invariant pending == [] && called == i
      invariant Drive(ordered, first, turns) == Drive(ordered, GoOn(ordered, i, failed, aborted), turns[i..])
      invariant Consistent(ordered, GoOn(ordered, i, failed, aborted))
    {
      if aborted {
        pending := ordered[i..];
        return true, failed, pending, called;
      }
      called := i + 1;
      AdvanceConsistent(ordered, InFlight(i, failed), turns[i]);
      assert turns[i..][1..] == turns[i + 1..];
      match turns[i] {
        case DeadlineFirst =>
          pending := ordered[i..];
          return true, failed, pending, called;
        case Returned(late) =>
          aborted := late;
        case Threw(late) =>
          failed := failed + [ordered[i]];
          aborted := late;
      }
    }
    timedOut := pending != [];
  }
}

/** Whom we let download from us: the peer list, scheduler_peer_speedrank and scheduler_choke_algorithm. */
module Choke {
  import opened Options

  /** A peer: its address and the state bits AMCHOKING, INTERESTED and DEAD. */
  datatype Peer = Peer(addr: nat, amChoking: bool, interested: bool, dead: bool)

  /** network_peer_create. */
  function Fresh(addr: nat): Peer { Peer(addr, true, false, false) }

  /** `p->state = 0; p->state |= PEER_STATE_DEAD`. */
  function Killed(p: Peer): Peer { Peer(p.addr, false, false, true) }

  function SetChoking(p: Peer, choking: bool): Peer { p.(amChoking := choking) }

  predicate Known(peers: seq<Peer>, addr: nat) { exists i :: 0 <= i < |peers| && peers[i].addr == addr }

  // ---------- The ten-second pass ----------

  /** The rate a peer is ranked by: none without interest, at least 1 with it. */
  function Rate(p: Peer, rx: nat): nat { if !p.interested then 0 else if rx == 0 then 1 else rx }

  /** `order` lists the positions of all peers, the fastest first: what qsort may return. */
  ghost predicate IsRanking(order: seq<nat>, peers: seq<Peer>, rx: seq<nat>) {
    && |order| == |peers| == |rx|
    && (forall i :: 0 <= i < |order| ==> order[i] < |peers|)
    && (forall i, j :: 0 <= i < j < |order| ==> order[i] != order[j])
    && (forall k :: 0 <= k < |peers| ==> k in order)
    && (forall i, j :: 0 <= i < j < |order| ==> Rate(peers[order[i]], rx[order[i]]) >= Rate(peers[order[j]], rx[order[j]]))
  }

  function Three(order: seq<nat>): seq<nat> { if |order| < 3 then order else order[..3] }

  function Interested(peers: seq<Peer>): nat {
    if peers == [] then 0
    else Interested(peers[..|peers| - 1]) + if peers[|peers| - 1].interested then 1 else 0
  }

  /** The choking bit each peer is to have after the pass. */
  function ChokingAfter(peers: seq<Peer>, top: seq<nat>, lucky: Option<nat>, k: nat): bool
    requires k < |peers|
  {
    if lucky == Some(k) then false
    else if k in top then peers[k].amChoking && !peers[k].interested
    else true
  }

  function Pass(peers: seq<Peer>, top: seq<nat>, lucky: Option<nat>): (r: seq<Peer>)
    ensures |r| == |peers|
    ensures forall k :: 0 <= k < |r| ==> r[k] == SetChoking(peers[k], ChokingAfter(peers, top, lucky, k))
  {
    seq(|peers|, k requires 0 <= k < |peers| => SetChoking(peers[k], ChokingAfter(peers, top, lucky, k)))
  }

  /** Every thirty seconds one more peer, the first in the list, is let in, provided that anybody is interested. */
  function Lucky(peers: seq<Peer>, now: nat): Option<nat> {
    if now % 30 == 0 && Interested(peers) > 0 then Some(0) else None
  }

  function ChokePass(peers: seq<Peer>, order: seq<nat>, now: nat): (r: seq<Peer>)
    ensures |r| == |peers|
  {
    if now % 10 != 0 then peers else Pass(peers, Three(order), Lucky(peers, now))
  }

  /** Live peers that we do not choke. */
  function Open(peers: seq<Peer>): nat {
    if peers == [] then 0
    else Open(peers[..|peers| - 1]) + if IsOpen(peers[|peers| - 1]) then 1 else 0
  }

  predicate IsOpen(p: Peer) { !p.dead && !p.amChoking }

  lemma {:induction false} OpenWithin(peers: seq<Peer>, s: set<nat>)
    requires forall k :: 0 <= k < |peers| && IsOpen(peers[k]) ==> k in s
    ensures Open(peers) <= |s|
    decreases |peers|
  {
    if peers != [] {
      var k := |peers| - 1;
      if IsOpen(peers[k]) {
        OpenWithin(peers[..k], s - {k});
      } else {
        OpenWithin(peers[..k], s);
      }
    }
  }

  lemma {:induction false} ElementsCount<T>(s: seq<T>)
    ensures |(set x | x in s)| <= |s|
    decreases |s|
  {
    if s != [] {
      ElementsCount(s[1..]);
      assert s == [s[0]] + s[1..];
      assert (set x | x in s) == {s[0]} + set x | x in s[1..];
    } else {
      assert (set x | x in s) == {};
    }
  }

  /** After a pass at most four peers are unchoked, whatever was the case before. */
  lemma PassBound(peers: seq<Peer>, top: seq<nat>, lucky: Option<nat>)
    requires |top| <= 3
    ensures Open(Pass(peers, top, lucky)) <= 4
  {
    var s := set x | x in top;
    ElementsCount(top);
    var s' := if lucky.Some? then s + {lucky.value} else s;
    OpenWithin(Pass(peers, top, lucky), s');
  }

  /** After a pass the interested peers among the three fastest are unchoked. */
  lemma TopThreeUnchoked(peers: seq<Peer>, order: seq<nat>, rx: seq<nat>, now: nat, i: nat)
    requires IsRanking(order, peers, rx) && now % 10 == 0 && i < |order| && i < 3 && peers[order[i]].interested
    ensures !ChokePass(peers, order, now)[order[i]].amChoking
  {
    assert Three(order)[i] == order[i];
  }

  /** A peer that ranks below the third place and is not first in the list is choked, however long it was unchoked. */
  lemma OthersChoked(peers: seq<Peer>, order: seq<nat>, rx: seq<nat>, now: nat, i: nat)
    requires IsRanking(order, peers, rx) && now % 10 == 0 && 3 <= i < |order| && order[i] != 0
    ensures ChokePass(peers, order, now)[order[i]].amChoking
  {
    forall j | 0 <= j < 3 ensures Three(order)[j] != order[i] {
      assert order[j] != order[i];
    }
  }

  lemma {:induction false} SomeoneInterested(peers: seq<Peer>)
    ensures Interested(peers) > 0 <==> exists k :: 0 <= k < |peers| && peers[k].interested
    decreases |peers|
  {
    if peers != [] {
      var front := peers[..|peers| - 1];
      SomeoneInterested(front);
      if Interested(front) > 0 {
        var k :| 0 <= k < |front| && front[k].interested;
        assert peers[k].interested;
      }
      if k :| 0 <= k < |peers| && peers[k].interested {
        assert k < |front| ==> front[k].interested;
      }
    }
  }

  /** If anybody is interested, the fastest ranked peer is. */
  lemma FastestInterested(peers: seq<Peer>, order: seq<nat>, rx: seq<nat>)
    requires IsRanking(order, peers, rx) && Interested(peers) > 0
    ensures |order| > 0 && peers[order[0]].interested
  {
    SomeoneInterested(peers);
    var k :| 0 <= k < |peers| && peers[k].interested;
    assert k in order;
    var i :| 0 <= i < |order| && order[i] == k;
    if i > 0 {
      assert Rate(peers[order[0]], rx[order[0]]) >= Rate(peers[order[i]], rx[order[i]]) >= 1;
    }
  }

  /** The peer that the opportunistic unchoke lets in is interested exactly when the first peer of the list is. */
  lemma LuckyInterestedIff(peers: seq<Peer>, now: nat)
    ensures var lucky := Lucky(peers, now);
      lucky.Some? ==> lucky.value < |peers| && (peers[lucky.value].interested <==> peers[0].interested)
  {
    SomeoneInterested(peers);
  }

  /** A pass that unchokes a peer without interest, for every random number, while the interested one stays where it was. */
  lemma LuckyBystander()
    ensures var peers := [Peer(1, true, false, false), Peer(2, true, true, false)];
      && IsRanking([1, 0], peers, [0, 0]) && Lucky(peers, 0) == Some(0)
      && !peers[0].interested && !ChokePass(peers, [1, 0], 0)[0].amChoking
  {
    var peers := [Peer(1, true, false, false), Peer(2, true, true, false)];
    assert peers[1].interested;
    SomeoneInterested(peers);
    assert [1, 0][0] == 1 && [1, 0][1] == 0;
  }

  /** Off the ten seconds nothing happens; on them only choking bits change, and a peer among the three fastest that is
      neither interested nor first in the list keeps its own. */
  lemma PassKeepsRest(peers: seq<Peer>, order: seq<nat>, rx: seq<nat>, now: nat, k: nat)
    requires IsRanking(order, peers, rx) && k < |peers|
    ensures var r := ChokePass(peers, order, now)[k];
      && r.addr == peers[k].addr && r.interested == peers[k].interested && r.dead == peers[k].dead
      && (now % 10 != 0 ==> r == peers[k])
      && (k in Three(order) && !peers[k].interested && k != 0 ==> r == peers[k])
  {}

  /** On the thirty seconds, if anybody is interested, the first peer is let in; otherwise a pass lets in nobody but the
      interested among the three fastest. */
  lemma LuckyExactly(peers: seq<Peer>, order: seq<nat>, rx: seq<nat>, now: nat, k: nat)
    requires IsRanking(order, peers, rx) && k < |peers| && now % 10 == 0
    ensures var r, lucky := ChokePass(peers, order, now)[k], now % 30 == 0 && exists i :: 0 <= i < |peers| && peers[i].interested;
      && (lucky && k == 0 ==> !r.amChoking)
      && (!(lucky && k == 0) && k !in Three(order) ==> r.amChoking)
  {
    SomeoneInterested(peers);
  }

  /** A ranking puts the interested before the others and the faster before the slower, but for telling no octets per second
      from one. */
  lemma RankingBySpeed(peers: seq<Peer>, order: seq<nat>, rx: seq<nat>, i: nat, j: nat)
    requires IsRanking(order, peers, rx) && i < j < |order| && peers[order[j]].interested
    ensures peers[order[i]].interested
    ensures rx[order[i]] >= rx[order[j]] || (rx[order[i]] == 0 && rx[order[j]] == 1)
  {
    assert Rate(peers[order[i]], rx[order[i]]) >= Rate(peers[order[j]], rx[order[j]]);
  }

  // ---------- Runs ----------

  /** The peer list and its counter `num_peers`. */
  datatype State = State(peers: seq<Peer>, num: nat)

  datatype Event =
    | Learn(addr: nat)                    // network_peerlist_add_peer
    | Accept(addr: nat)                   // network_handle_peer_connect
    | Drop(i: nat)                        // network_peerlist_connect gives up on a peer
    | SetInterest(i: nat, yes: bool)      // INTERESTED, NOTINTERESTED
    | Kill(i: nat)                        // any protocol or socket error
    | Tick(silent: seq<bool>, now: nat, rx: seq<nat>, order: seq<nat>)  // scheduler()

  /** The scheduler's walk over the peers: the dead are removed, those silent for too long are killed. */
  function Reap(peers: seq<Peer>, silent: seq<bool>): seq<Peer>
    requires |silent| == |peers|
  {
    if peers == [] then []
    else
      var n := |peers| - 1;
      var rest := Reap(peers[..n], silent[..n]);
      if peers[n].dead then rest else rest + [if silent[n] then Killed(peers[n]) else peers[n]]
  }

  ghost predicate Enabled(s: State, e: Event) {
    match e
    case Learn(_) => true
    case Accept(_) => true
    case Drop(i) => i < |s.peers|
    case SetInterest(i, _) => i < |s.peers|
    case Kill(i) => i < |s.peers|
    case Tick(silent, _, rx, order) => |silent| == |s.peers| && IsRanking(order, Reap(s.peers, silent), rx)
  }

  ghost function Step(s: State, e: Event): State
    requires Enabled(s, e)
  {
    match e
    case Learn(addr) => if Known(s.peers, addr) then s else State(s.peers + [Fresh(addr)], s.num + 1)
    case Accept(addr) => State(s.peers + [Fresh(addr)], s.num + 1)
    case Drop(i) => State(s.peers[..i] + s.peers[i + 1..], Less(s.num, 1))
    case SetInterest(i, yes) => s.(peers := s.peers[i := s.peers[i].(interested := yes)])
    case Kill(i) => s.(peers := s.peers[i := Killed(s.peers[i])])
    case Tick(silent, now, _, order) =>
      var peers := Reap(s.peers, silent);
      State(ChokePass(peers, order, now), Less(s.num, |s.peers| - |peers|))
  }

  /** Unsigned subtraction, where it does not wrap. */
  function Less(a: nat, b: int): nat { if 0 <= b <= a then a - b else 0 }

  ghost predicate IsRun(s: State, es: seq<Event>)
    decreases |es|
  {
    es == [] || (Enabled(s, es[0]) && IsRun(Step(s, es[0]), es[1..]))
  }

  ghost function Run(s: State, es: seq<Event>): State
    requires IsRun(s, es)
    decreases |es|
  {
    if es == [] then s else Run(Step(s, es[0]), es[1..])
  }

  ghost predicate Inv(s: State) { s.num == |s.peers| && Open(s.peers) <= 4 }

  lemma OpenSnoc(a: seq<Peer>, p: Peer)
    ensures Open(a + [p]) == Open(a) + if IsOpen(p) then 1 else 0
  {
    assert (a + [p])[..|a|] == a;
  }

  lemma {:induction false} OpenConcat(a: seq<Peer>, b: seq<Peer>)
    ensures Open(a + b) == Open(a) + Open(b)
    decreases |b|
  {
    if b == [] {
      assert a + b == a;
    } else {
      var n := |b| - 1;
      assert (a + b)[..|a + b| - 1] == a + b[..n];
      OpenConcat(a, b[..n]);
    }
  }

  /** Open peers when the peer at `i` is replaced or removed. */
  lemma OpenAt(peers: seq<Peer>, i: nat, p: Peer)
    requires i < |peers|
    ensures Open(peers[..i] + peers[i + 1..]) == Open(peers) - if IsOpen(peers[i]) then 1 else 0
    ensures Open(peers[i := p]) == Open(peers[..i] + peers[i + 1..]) + if IsOpen(p) then 1 else 0
  {
    var a, b := peers[..i], peers[i + 1..];
    assert peers == (a + [peers[i]]) + b && peers[i := p] == (a + [p]) + b;
    OpenConcat(a + [peers[i]], b);
    OpenConcat(a + [p], b);
    OpenConcat(a, b);
    OpenSnoc(a, peers[i]);
    OpenSnoc(a, p);
  }

  lemma {:induction false} ReapBound(peers: seq<Peer>, silent: seq<bool>)
    requires |silent| == |peers|
    ensures Open(Reap(peers, silent)) <= Open(peers) && |Reap(peers, silent)| <= |peers|
    decreases |peers|
  {
    if peers != [] {
      var n := |peers| - 1;
      ReapBound(peers[..n], silent[..n]);
      if !peers[n].dead {
        OpenSnoc(Reap(peers[..n], silent[..n]), if silent[n] then Killed(peers[n]) else peers[n]);
      }
    }
  }

  /** How many of the first `i` peers are alive. */
  function Living(peers: seq<Peer>, i: nat): nat
    requires i <= |peers|
  {
    if i == 0 then 0 else Living(peers, i - 1) + if peers[i - 1].dead then 0 else 1
  }

  lemma {:induction false} LivingSame(peers: seq<Peer>, n: nat, i: nat)
    requires i <= n <= |peers|
    ensures Living(peers[..n], i) == Living(peers, i)
    decreases i
  {
    if i > 0 { LivingSame(peers, n, i - 1); }
  }

  /** What the walk makes of a living peer. */
  function Spare(p: Peer, silent: bool): Peer { if silent then Peer(p.addr, false, false, true) else p }

  /** The scheduler's walk keeps every living peer, in order: the silent as killed, the others unchanged. */
  lemma {:induction false} ReapKeeps(peers: seq<Peer>, silent: seq<bool>, i: nat)
    requires |silent| == |peers| && i < |peers| && !peers[i].dead
    ensures |Reap(peers, silent)| == Living(peers, |peers|) && Living(peers, i) < |Reap(peers, silent)|
    ensures Reap(peers, silent)[Living(peers, i)] == Spare(peers[i], silent[i])
    decreases |peers|
  {
    var n := |peers| - 1;
    ReapLength(peers, silent);
    ReapLength(peers[..n], silent[..n]);
    LivingSame(peers, n, n);
    if i < n {
      ReapKeeps(peers[..n], silent[..n], i);
      LivingSame(peers, n, i);
    }
  }

  lemma {:induction false} ReapLength(peers: seq<Peer>, silent: seq<bool>)
    requires |silent| == |peers|
    ensures |Reap(peers, silent)| == Living(peers, |peers|)
    decreases |peers|
  {
    if peers != [] {
      var n := |peers| - 1;
      ReapLength(peers[..n], silent[..n]);
      LivingSame(peers, n, n);
    }
  }

  /** And nothing else: what stands in place `j` is the living peer that has `j` living ones before it. */
  lemma {:induction false} ReapOnly(peers: seq<Peer>, silent: seq<bool>, j: nat) returns (i: nat)
    requires |silent| == |peers| && j < |Reap(peers, silent)|
    ensures i < |peers| && !peers[i].dead && Living(peers, i) == j && Reap(peers, silent)[j] == Spare(peers[i], silent[i])
    decreases |peers|
  {
    var n := |peers| - 1;
    ReapLength(peers[..n], silent[..n]);
    LivingSame(peers, n, n);
    if j < |Reap(peers[..n], silent[..n])| {
      i := ReapOnly(peers[..n], silent[..n], j);
      LivingSame(peers, n, i);
    } else {
      i := n;
    }
  }

  /** What the other events do to the list: a new peer comes last, choked, not interested and alive; a dropped peer leaves;
      interest and death concern one peer only, and death clears its bits. */
  lemma ListEvents(s: State, addr: nat, i: nat, yes: bool)
    requires i < |s.peers| == s.num
    ensures Step(s, Accept(addr)) == State(s.peers + [Peer(addr, true, false, false)], s.num + 1)
    ensures Step(s, Learn(addr))
      == if exists j :: 0 <= j < |s.peers| && s.peers[j].addr == addr then s
         else State(s.peers + [Peer(addr, true, false, false)], s.num + 1)
    ensures var r := Step(s, Drop(i));
      r.num == |r.peers| == s.num - 1 && forall j :: 0 <= j < |r.peers| ==> r.peers[j] == s.peers[if j < i then j else j + 1]
    ensures var r := Step(s, SetInterest(i, yes));
      r.num == s.num && |r.peers| == |s.peers| && forall j :: 0 <= j < |r.peers| ==>
        r.peers[j] == if j == i then Peer(s.peers[i].addr, s.peers[i].amChoking, yes, s.peers[i].dead) else s.peers[j]
    ensures var r := Step(s, Kill(i));
      r.num == s.num && |r.peers| == |s.peers| && forall j :: 0 <= j < |r.peers| ==>
        r.peers[j] == if j == i then Peer(s.peers[i].addr, false, false, true) else s.peers[j]
  {}

  lemma StepKeeps(s: State, e: Event)
    requires Inv(s) && Enabled(s, e)
    ensures Inv(Step(s, e))
  {
    hide Open, Pass, IsRanking;
    match e {
      case Learn(addr) => OpenSnoc(s.peers, Fresh(addr));
      case Accept(addr) => OpenSnoc(s.peers, Fresh(addr));
      case Drop(i) => OpenAt(s.peers, i, s.peers[i]);
      case SetInterest(i, yes) => OpenAt(s.peers, i, s.peers[i].(interested := yes));
      case Kill(i) => OpenAt(s.peers, i, Killed(s.peers[i]));
      case Tick(silent, now, rx, order) =>
        var peers := Reap(s.peers, silent);
        ReapBound(s.peers, silent);
        PassBound(peers, Three(order), Lucky(peers, now));
    }
  }

  /** In every reachable state at most four live peers are unchoked and `num_peers` counts the list. */
  lemma {:induction false} AtMostFour(s: State, es: seq<Event>)
    requires Inv(s) && IsRun(s, es)
    ensures Inv(Run(s, es))
    decreases |es|
  {
    if es != [] {
      StepKeeps(s, es[0]);
      AtMostFour(Step(s, es[0]), es[1..]);
    }
  }

  /** A session starts with no peers. */
  lemma FromTheStart(es: seq<Event>)
    requires IsRun(State([], 0), es)
    ensures var s := Run(State([], 0), es); s.num == |s.peers| && Open(s.peers) <= 4
  {
    AtMostFour(State([], 0), es);
  }

  // ---------- The code ----------

  /** An entry of the array that scheduler_peer_speedrank sorts. */
  datatype Counter = Counter(rate: nat, peer: nat)

  /** The peer list of a session. */
  class Swarm {
    var peers: seq<Peer>
    var num: nat

    constructor ()
      ensures peers == [] && num == 0
    {
      peers, num := [], 0;
    }

    /** network_peerlist_add_peer. */
    method AddPeer(addr: nat)
      modifies this
      ensures State(peers, num) == Step(old(State(peers, num)), Learn(addr))
    {
      var found, i := false, 0;
      while i < |peers|
        invariant i <= |peers| && peers == old(peers) && num == old(num)
        invariant found ==> Known(peers, addr)
        invariant !found ==> forall k :: 0 <= k < i ==> peers[k].addr != addr
      {
        if peers[i].addr == addr {
          found := true;
          break;
        }
        i := i + 1;
      }
      if !found {
        peers, num := peers + [Fresh(addr)], num + 1;
      }
    }

    /** The loop of scheduler() with scheduler_reap_dead and scheduler_threshold_kill. */
    method ReapAndKill(silent: seq<bool>)
      requires |silent| == |peers| == num
      modifies this
      ensures peers == Reap(old(peers), silent) && num == |peers|
    {
      var was, i := peers, 0;
      peers := [];
      while i < |was|
        invariant i <= |was| && was == old(peers)
        invariant peers == Reap(was[..i], silent[..i]) && num == |peers| + (|was| - i)
      {
        assert was[..i + 1][..i] == was[..i] && silent[..i + 1][..i] == silent[..i];
        if was[i].dead {
          num := num - 1;
        } else {
          peers := peers + [if silent[i] then Killed(was[i]) else was[i]];
        }
        i := i + 1;
      }
      assert was[..i] == was && silent[..i] == silent;
    }

    /** scheduler_peer_speedrank up to the call of qsort; `None` is the abort on a wrong count. */
    method Speedrank(rx: seq<nat>) returns (pc: Option<seq<Counter>>)
      requires |rx| == |peers|
      ensures pc.None? <==> num != |peers|
      ensures pc.Some? ==> |pc.value| == |peers|
      ensures pc.Some? ==> forall k :: 0 <= k < |peers| ==> pc.value[k] == Counter(Rate(peers[k], rx[k]), k)
    {
      var a, i := [], 0;
      while i < |peers|
        invariant i <= |peers| && |a| == i
        invariant forall k :: 0 <= k < i ==> a[k] == Counter(Rate(peers[k], rx[k]), k)
      {
        var rate := 0;
        if peers[i].interested {
          rate := rx[i];
          if rate == 0 { rate := 1; }
        }
        a := a + [Counter(rate, i)];
        i := i + 1;
      }
      if i != num { return None; }
      pc := Some(a);
    }

    method CountInterested() returns (n: nat)
      ensures n == Interested(peers)
    {
      n := 0;
      var i := 0;
      while i < |peers|
        invariant i <= |peers| && n == Interested(peers[..i])
      {
        assert peers[..i + 1][..i] == peers[..i];
        if peers[i].interested { n := n + 1; }
        i := i + 1;
      }
      assert peers[..i] == peers;
    }

    /** The walk to the peer for the opportunistic unchoke: `None` when it runs off the list. It tests the interest of the
        fastest peer, never that of the peer it stands on. */
    method WalkTo(fastest: nat, j: nat) returns (p2: Option<nat>)
      requires fastest < |peers|
      ensures p2 == if peers[fastest].interested then Some(0) else if j < |peers| then Some(j) else None
    {
      p2 := Some(0);
      var k := 0;
      while k < j
        invariant k <= j
        invariant p2 == if peers[fastest].interested then Some(0) else if k < |peers| then Some(k) else None
      {
        if p2.None? { return None; }
        if !peers[fastest].interested {
          p2 := if p2.value + 1 < |peers| then Some(p2.value + 1) else None;
        }
        k := k + 1;
      }
    }

    /** The three fastest, if they are interested. */
    method UnchokeFastest(pc: seq<nat>)
      requires |pc| == |peers| == num
      requires forall i :: 0 <= i < |pc| ==> pc[i] < |peers|
      modifies this`peers
      ensures |peers| == |old(peers)|
      ensures forall k :: 0 <= k < |peers| ==>
        peers[k] == if k in Three(pc) && old(peers)[k].interested then SetChoking(old(peers)[k], false) else old(peers)[k]
    {
      var i, n := 0, if num < 3 then num else 3;
      while i < n
        invariant i <= n && |peers| == |old(peers)|
        invariant forall k :: 0 <= k < |peers| ==>
          peers[k] == if k in pc[..i] && old(peers)[k].interested then SetChoking(old(peers)[k], false) else old(peers)[k]
      {
        var p := pc[i];
        assert pc[..i + 1] == pc[..i] + [p];
        if peers[p].amChoking && peers[p].interested {
          peers := peers[p := SetChoking(peers[p], false)];
        }
        i := i + 1;
      }
    }

    /** Whether the inner loop of the last part spares peer `p`. */
    method Spared(pc: seq<nat>, p: nat, p2: Option<nat>) returns (c: bool)
      requires |pc| == |peers| == num && p < |peers|
      ensures c <==> p in Three(pc) || p2 == Some(p)
    {
      c := false;
      var i, n := 0, if num < 3 then num else 3;
      while i < n
        invariant i <= n && !c && p !in pc[..i] && (i > 0 ==> p2 != Some(p))
      {
        if p == pc[i] || p2 == Some(p) {
          return true;
        }
        assert pc[..i + 1] == pc[..i] + [pc[i]];
        i := i + 1;
      }
    }

    /** Everybody else is choked. */
    method ChokeOthers(pc: seq<nat>, p2: Option<nat>)
      requires |pc| == |peers| == num
      modifies this`peers
      ensures |peers| == |old(peers)|
      ensures forall k :: 0 <= k < |peers| ==>
        peers[k] == if k in Three(pc) || p2 == Some(k) then old(peers)[k] else SetChoking(old(peers)[k], true)
    {
      var p := 0;
      while p < |peers|
        invariant p <= |peers| && |peers| == |old(peers)|
        invariant forall k :: 0 <= k < p ==>
          peers[k] == if k in Three(pc) || p2 == Some(k) then old(peers)[k] else SetChoking(old(peers)[k], true)
        invariant forall k :: p <= k < |peers| ==> peers[k] == old(peers)[k]
      {
        var c := Spared(pc, p, p2);
        if !c && !peers[p].amChoking {
          peers := peers[p := SetChoking(peers[p], true)];
        }
        p := p + 1;
      }
    }

    /** scheduler_choke_algorithm; `pc` is what qsort made of the counters, `random` an arbitrary number. */
    method ChokeAlgorithm(now: nat, random: nat, pc: seq<nat>, ghost rx: seq<nat>)
      requires IsRanking(pc, peers, rx) && num == |peers|
      modifies this`peers
      ensures peers == ChokePass(old(peers), pc, now)
    {
      hide IsRanking, Interested;
      if now % 10 != 0 { return; }
      RankingInRange(pc, peers, rx);
      var p2: Option<nat> := None;
      ghost var was := peers;
      UnchokeFastest(pc);
      SameInterest(was, peers);
      if now % 30 == 0 {
        var n := CountInterested();
        if n > 0 {
          FastestInterested(was, pc, rx);
          p2 := WalkTo(pc[0], random % n);
          peers := peers[p2.value := SetChoking(peers[p2.value], false)];
        }
      }
      ChokeOthers(pc, p2);
    }

    /** One call of scheduler(), as far as it concerns choking; `aborted` is the exit on a wrong count. */
    method Scheduler(silent: seq<bool>, now: nat, random: nat, rx: seq<nat>, pc: seq<nat>) returns (aborted: bool)
      requires Inv(State(peers, num)) && Enabled(State(peers, num), Tick(silent, now, rx, pc))
      modifies this
      ensures !aborted && State(peers, num) == Step(old(State(peers, num)), Tick(silent, now, rx, pc))
      ensures Inv(State(peers, num))
    {
      StepKeeps(State(peers, num), Tick(silent, now, rx, pc));
      ReapBound(peers, silent);
      ReapAndKill(silent);
      aborted := false;
      if now % 10 == 0 {
        var counters := Speedrank(rx);
        aborted := counters.None?;
      }
      ChokeAlgorithm(now, random, pc, rx);
    }
  }

  lemma {:induction false} SameInterest(a: seq<Peer>, b: seq<Peer>)
    requires |a| == |b| && forall k :: 0 <= k < |a| ==> a[k].interested == b[k].interested
    ensures Interested(a) == Interested(b)
    decreases |a|
  {
    if a != [] { SameInterest(a[..|a| - 1], b[..|b| - 1]); }
  }

  lemma RankingInRange(order: seq<nat>, peers: seq<Peer>, rx: seq<nat>)
    requires IsRanking(order, peers, rx)
    ensures |order| == |peers| && forall i :: 0 <= i < |order| ==> order[i] < |peers|
  {}
}

/**
 * The peer groups and the per-request data as they are mutated
 * (ngx_http_upstream_round_robin.c, _least_conn_module.c, _ip_hash_module.c).
 */
module UpstreamPeers {
  import opened Basics
  import opened Upstream
  import opened AddressHash

  const WORD_BITS := 64

  /** One word of the tried bitmap. */
  type Word = w: seq<bool> | |w| == WORD_BITS witness seq(WORD_BITS, _ => false)

  const ZERO_WORD: Word := seq(WORD_BITS, _ => false)

  /** The bit of peer i. */
  predicate Tried(words: seq<Word>, i: nat)
    requires i < |words| * WORD_BITS
  {
    words[i / WORD_BITS][i % WORD_BITS]
  }

  /** Who may still be chosen. */
  function Candidates(s: seq<Peer>, words: seq<Word>, now: int): (c: seq<bool>)
    requires |s| <= |words| * WORD_BITS
    ensures |c| == |s| && forall i: nat :: i < |s| ==> c[i] == (!Tried(words, i) && Eligible(s[i], now))
  {
    seq(|s|, i requires 0 <= i < |s| => !Tried(words, i) && Eligible(s[i], now))
  }

  function Marked(words: seq<Word>, p: nat): (r: seq<Word>)
    requires p < |words| * WORD_BITS
    ensures |r| == |words|
    ensures forall i: nat :: i < |words| * WORD_BITS ==> (Tried(r, i) <==> Tried(words, i) || i == p)
  {
    var r := words[p / WORD_BITS := words[p / WORD_BITS][p % WORD_BITS := true]];
    assert forall i: nat :: i / WORD_BITS == p / WORD_BITS && i % WORD_BITS == p % WORD_BITS ==> i == p;
    r
  }

  /** The words after the clearing loop of the switch to n backup peers. */
  function Cleared(words: seq<Word>, n: nat): (r: seq<Word>)
    requires n <= |words| * WORD_BITS
    ensures |r| == |words| && forall i: nat :: i < n ==> !Tried(r, i)
    ensures forall i: nat :: n + (WORD_BITS - 1) <= i < |words| * WORD_BITS ==> Tried(r, i) == Tried(words, i)
  {
    var k := (n + (WORD_BITS - 1)) / WORD_BITS;
    seq(k, _ => ZERO_WORD) + words[k..]
  }

  /** What one group answers: the peer taken, the peers and the bitmap afterwards. */
  datatype Answer = Answer(taken: Option<nat>, peers: seq<Peer>, words: seq<Word>)

  function Take(r: (Option<nat>, seq<Peer>), words: seq<Word>): (a: Answer)
    requires |r.1| <= |words| * WORD_BITS && (r.0.Some? ==> r.0.value < |r.1|)
  {
    if r.0 == None then Answer(None, r.1, words)
    else Answer(r.0, r.1[r.0.value := Taken(r.1[r.0.value])], Marked(words, r.0.value))
  }

  function AskRoundRobin(single: bool, s: seq<Peer>, words: seq<Word>, now: int): (a: Answer)
    requires 0 < |s| <= |words| * WORD_BITS
    ensures |a.peers| == |s| && |a.words| == |words| && (a.taken.Some? ==> a.taken.value < |s|)
  {
    if !single then Take(RoundRobin(s, Candidates(s, words, now), now), words)
    else if s[0].down || (s[0].maxConns != 0 && s[0].conns >= s[0].maxConns) then Answer(None, s, words)
    else Answer(Some(0), s[0 := Taken(s[0])], words)
  }

  function AskLeastConn(single: bool, s: seq<Peer>, words: seq<Word>, now: int): (a: Answer)
    requires 0 < |s| <= |words| * WORD_BITS
    ensures |a.peers| == |s| && |a.words| == |words| && (a.taken.Some? ==> a.taken.value < |s|)
  {
    if single then AskRoundRobin(true, s, words, now)
    else Take(LeastConn(s, Candidates(s, words, now), now), words)
  }

  datatype Policy = ByRoundRobin | ByLeastConn

  function Ask(policy: Policy, single: bool, s: seq<Peer>, words: seq<Word>, now: int): (a: Answer)
    requires 0 < |s| <= |words| * WORD_BITS
    ensures |a.peers| == |s| && |a.words| == |words| && (a.taken.Some? ==> a.taken.value < |s|)
  {
    if policy.ByRoundRobin? then AskRoundRobin(single, s, words, now) else AskLeastConn(single, s, words, now)
  }

  ghost predicate TiedFrom(s: seq<Peer>, t: seq<bool>, first: nat) {
    |t| == |s| && first < |s| && t[first] && forall i :: 0 <= i < first ==> !t[i]
  }

  /** t marks the peers tied with the first minimum. */
  ghost predicate TiesOf(s: seq<Peer>, t: seq<bool>, first: nat, words: seq<Word>, now: int) {
    && Weighted(s) && |s| <= |words| * WORD_BITS
    && TiedFrom(s, t, first) && t == Tied(s, Candidates(s, words, now), first)
  }

  /** The same, peer by peer, for the first n. */
  ghost predicate TiesTo(s: seq<Peer>, t: seq<bool>, first: nat, words: seq<Word>, now: int, n: nat)
    requires |t| == |s| && n <= |s| <= |words| * WORD_BITS && first < |s|
  {
    n == 0 ||
    (&& TiesTo(s, t, first, words, now, n - 1) && s[n - 1].weight >= 1
     && (t[n - 1] <==> !Tried(words, n - 1) && Eligible(s[n - 1], now) && SameLoad(s[n - 1], s[first]))
     && (n - 1 < first ==> !t[n - 1]) && (n - 1 == first ==> t[n - 1]))
  }

  lemma {:induction false} TiesAt(s: seq<Peer>, t: seq<bool>, first: nat, words: seq<Word>, now: int, n: nat, i: nat)
    requires |t| == |s| && i < n <= |s| <= |words| * WORD_BITS && first < |s| && TiesTo(s, t, first, words, now, n)
    ensures s[i].weight >= 1 && (i < first ==> !t[i]) && (i == first ==> t[i])
    ensures t[i] <==> !Tried(words, i) && Eligible(s[i], now) && SameLoad(s[i], s[first])
  {
    if i == n - 1 {
    } else {
      TiesAt(s, t, first, words, now, n - 1, i);
    }
  }

  lemma TiesAll(s: seq<Peer>, t: seq<bool>, first: nat, words: seq<Word>, now: int)
    requires |t| == |s| <= |words| * WORD_BITS && first < |s| && TiesTo(s, t, first, words, now, |s|)
    ensures TiesOf(s, t, first, words, now)
  {
    forall i: nat | i < |s|
      ensures s[i].weight >= 1 && (i < first ==> !t[i]) && (i == first ==> t[i])
      ensures t[i] <==> !Tried(words, i) && Eligible(s[i], now) && SameLoad(s[i], s[first])
    {
      TiesAt(s, t, first, words, now, |s|, i);
    }
    assert t == Tied(s, Candidates(s, words, now), first);
  }

  lemma {:induction false} TiesFrom(s: seq<Peer>, t: seq<bool>, first: nat, words: seq<Word>, now: int, n: nat)
    requires TiesOf(s, t, first, words, now) && n <= |s|
    ensures TiesTo(s, t, first, words, now, n)
  {
    if n == 0 {
    } else {
      TiesFrom(s, t, first, words, now, n - 1);
    }
  }

  /** The peers, best and total of the second scan when it has dealt with the peers before i. */
  function ScanTo(s: seq<Peer>, t: seq<bool>, first: nat, i: nat): (seq<Peer>, nat, int)
    requires |t| == |s| && i <= |s|
  {
    var b := HeaviestTo(BumpTo(s, t, |s|), t, i);
    (BumpTo(s, t, i), if b == None then first else b.value, TotalTo(s, t, i))
  }

  lemma ScanBegins(s: seq<Peer>, t: seq<bool>, first: nat)
    requires TiedFrom(s, t, first)
    ensures ScanTo(s, t, first, first) == (s, first, 0)
  {
    NoneBefore(s, t, BumpTo(s, t, |s|), first);
  }

  lemma {:induction false} NoneBefore(s: seq<Peer>, t: seq<bool>, up: seq<Peer>, k: nat)
    requires |t| == |s| && k <= |s| && |up| == |s| && forall i :: 0 <= i < k ==> !t[i]
    ensures TotalTo(s, t, k) == 0 && HeaviestTo(up, t, k) == None
    ensures BumpTo(s, t, k) == s
  {
    if k == 0 {
    } else {
      NoneBefore(s, t, up, k - 1);
    }
  }

  /** The scan has a best peer as soon as it is behind the first. */
  lemma ScanHasBest(s: seq<Peer>, t: seq<bool>, first: nat, i: nat)
    requires TiedFrom(s, t, first) && first <= i <= |s|
    ensures HeaviestTo(BumpTo(s, t, |s|), t, i) == if i == first then None else Some(ScanTo(s, t, first, i).1)
    ensures ScanTo(s, t, first, i).1 < |s| && t[ScanTo(s, t, first, i).1]
  {
    HeaviestIs(BumpTo(s, t, |s|), t, i);
  }

  /** The scan has dealt with the peers before i: cur are the peers, best and total its variables. */
  ghost predicate Heavy(s: seq<Peer>, c: seq<bool>, i: nat, cur: seq<Peer>, best: Option<nat>, total: int) {
    && |c| == |s| && i <= |s|
    && cur == BumpTo(s, c, i) && total == TotalTo(s, c, i)
    && best == HeaviestTo(BumpTo(s, c, |s|), c, i)
  }

  /** A list of peers; next is the list of backup peers. */
  class PeerGroup {
    const peer: array<Peer>
    const single: bool
    const totalWeight: int
    const next: PeerGroup?

    constructor (peer: array<Peer>, single: bool, totalWeight: int, next: PeerGroup?)
      ensures this.peer == peer && this.single == single && this.totalWeight == totalWeight && this.next == next
    {
      this.peer, this.single, this.totalWeight, this.next := peer, single, totalWeight, next;
    }

    /** A lone peer without backups is single; backups have no backups. */
    ghost predicate Shaped() {
      && peer.Length > 0
      && (single ==> peer.Length == 1 && next == null)
      && (next != null ==> next.peer.Length > 0 && next.next == null && !next.single && next.peer != peer)
    }
  }

  /** Words the bitmap needs for n peers. */
  function TriedWords(n: nat): nat {
    if n <= WORD_BITS then 1 else (n + (WORD_BITS - 1)) / WORD_BITS
  }

  class PeerData {
    var group: PeerGroup
    var current: nat
    const tried: array<Word>

    /** Every peer of the group and of its backups has a bit in tried. */
    ghost predicate Valid()
      reads this
    {
      && group.Shaped()
      && group.peer.Length <= tried.Length * WORD_BITS
      && (group.next != null ==> group.next.peer.Length <= tried.Length * WORD_BITS)
    }

    /** ngx_http_upstream_init_round_robin_peer: one bitmap for the group and its backups. */
    constructor (group: PeerGroup)
      requires group.Shaped()
      ensures Valid() && fresh(tried) && this.group == group
      ensures var n, m := group.peer.Length, if group.next != null then group.next.peer.Length else 0;
              tried.Length == TriedWords(if m > n then m else n)
      ensures forall i: nat :: i < tried.Length * WORD_BITS ==> !Tried(tried[..], i)
    {
      this.group := group;
      this.current := 0;
      var n := group.peer.Length;
      if group.next != null && group.next.peer.Length > n {
        n := group.next.peer.Length;
      }
      tried := new Word[TriedWords(n)](_ => ZERO_WORD);
    }

    method MarkTried(p: nat)
      requires p < tried.Length * WORD_BITS
      modifies tried
      ensures tried[..] == Marked(old(tried[..]), p)
    {
      var n, m := p / WORD_BITS, p % WORD_BITS;
      tried[n] := tried[n][m := true];
    }

    method ClearTried(number: nat)
      requires number <= tried.Length * WORD_BITS
      modifies tried
      ensures tried[..] == Cleared(old(tried[..]), number)
    {
      var n := (number + (WORD_BITS - 1)) / WORD_BITS;
      for i := 0 to n
        invariant forall k :: 0 <= k < tried.Length ==> tried[k] == (if k < i then ZERO_WORD else old(tried[k]))
      {
        tried[i] := ZERO_WORD;
      }
    }

    /** The four tests by which every scan passes over a peer. */
    method Usable(i: nat, now: int) returns (free: bool)
      requires Valid() && i < group.peer.Length
      ensures free == (!Tried(tried[..], i) && Eligible(group.peer[i], now))
    {
      var p := group.peer[i];
      if tried[i / WORD_BITS][i % WORD_BITS] {
        return false;
      }
      if p.down {
        return false;
      }
      if p.maxFails != 0 && p.fails >= p.maxFails && now - p.checked <= p.failTimeout {
        return false;
      }
      if p.maxConns != 0 && p.conns >= p.maxConns {
        return false;
      }
      return true;
    }

    /** The scan of ngx_http_upstream_get_peer. */
    method Scan(now: int) returns (best: Option<nat>, total: int)
      requires Valid()
      modifies group.peer
      ensures var s, c := old(group.peer[..]), old(Candidates(group.peer[..], tried[..], now));
              Heavy(s, c, |s|, group.peer[..], best, total)
    {
      ghost var s, c := group.peer[..], Candidates(group.peer[..], tried[..], now);
      ghost var words := tried[..];
      best := None;
      total := 0;
      assert group.peer[..] == BumpTo(s, c, 0);
      for i := 0 to group.peer.Length
        invariant tried[..] == words && Heavy(s, c, i, group.peer[..], best, total)
      {
        best, total := ScanStep(i, best, total, now, s, c);
      }
    }

    /** One peer of the scan. */
    method ScanStep(i: nat, best0: Option<nat>, total0: int, now: int, ghost s: seq<Peer>, ghost c: seq<bool>)
      returns (best: Option<nat>, total: int)
      requires Valid() && |s| == group.peer.Length && i < |s| && c == Candidates(s, tried[..], now)
      requires Heavy(s, c, i, group.peer[..], best0, total0)
      modifies group.peer
      ensures Heavy(s, c, i + 1, group.peer[..], best, total)
    {
      best, total := best0, total0;
      ghost var before := group.peer[..];
      assert before[i] == s[i];
      var free := Usable(i, now);
      if !free {
        assert before == BumpTo(s, c, i + 1);
        return;
      }
      var p := group.peer[i];
      group.peer[i] := Bumped(p);
      assert group.peer[..] == before[i := Bumped(s[i])];
      assert group.peer[..] == BumpTo(s, c, i + 1);
      total := total + p.effectiveWeight;
      if best == None || group.peer[i].currentWeight > group.peer[best.value].currentWeight {
        best := Some(i);
      }
    }

    /** ngx_http_upstream_get_peer */
    method GetPeer(now: int) returns (best: Option<nat>)
      requires Valid()
      modifies this`current, group.peer, tried
      ensures (best, group.peer[..]) ==
              RoundRobin(old(group.peer[..]), old(Candidates(group.peer[..], tried[..], now)), now)
      ensures if best == None then current == old(current) && tried[..] == old(tried[..])
              else current == best.value && tried[..] == Marked(old(tried[..]), best.value)
    {
      ghost var s, c := group.peer[..], Candidates(group.peer[..], tried[..], now);
      var total;
      best, total := Scan(now);
      if best == None {
        HeaviestIs(BumpTo(s, c, |s|), c, |s|);
        assert group.peer[..] == s;
        return;
      }
      current := best.value;
      MarkTried(best.value);
      group.peer[best.value] := Settled(group.peer[best.value], total, now);
    }

    /** One group's part of ngx_http_upstream_get_round_robin_peer. */
    method AskGroup(now: int) returns (ok: bool)
      requires Valid()
      modifies this`current, group.peer, tried
      ensures var a := AskRoundRobin(group.single, old(group.peer[..]), old(tried[..]), now);
              && group.peer[..] == a.peers && tried[..] == a.words && ok == a.taken.Some?
              && current == (if ok then a.taken.value else old(current))
    {
      var chosen;
      if group.single {
        var p := group.peer[0];
        if p.down {
          return false;
        }
        if p.maxConns != 0 && p.conns >= p.maxConns {
          return false;
        }
        current := 0;
        chosen := Some(0);
      } else {
        chosen := GetPeer(now);
        if chosen == None {
          return false;
        }
      }
      group.peer[chosen.value] := Taken(group.peer[chosen.value]);
      return true;
    }

    /** The switch to the backup peers, shared by the policies. */
    method SwitchToBackup()
      requires Valid() && group.next != null
      modifies this`group, tried
      ensures Valid() && group == old(group).next && tried[..] == Cleared(old(tried[..]), group.peer.Length)
    {
      group := group.next;
      ClearTried(group.peer.Length);
    }

    /**
     * The group answers, or else its backups, with a bitmap cleared for them, do; a request
     * that has switched stays with the backups even when they are busy too.
     */
    twostate predicate Served(policy: Policy, now: int, ok: bool)
      requires old(Valid())
      reads *
    {
      var g := old(group);
      var a := Ask(policy, g.single, old(group.peer[..]), old(tried[..]), now);
      && g.peer[..] == a.peers
      && if a.taken.Some? || g.next == null then
           && group == g && tried[..] == a.words && ok == a.taken.Some?
           && current == (if ok then a.taken.value else old(current))
           && (g.next != null ==> g.next.peer[..] == old(if group.next != null then group.next.peer[..] else []))
         else
           var words := Cleared(a.words, g.next.peer.Length);
           var b := Ask(policy, false, old(if group.next != null then group.next.peer[..] else []), words, now);
           && group == g.next && g.next.peer[..] == b.peers && tried[..] == b.words && ok == b.taken.Some?
           && current == (if ok then b.taken.value else old(current))
    }

    /** ngx_http_upstream_get_round_robin_peer; false is NGX_BUSY. */
    method GetRoundRobinPeer(now: int) returns (ok: bool)
      requires Valid()
      modifies this`current, this`group, group.peer, tried
      modifies if group.next != null then {group.next.peer} else {}
      ensures Valid() && Served(ByRoundRobin, now, ok)
      decreases if group.next == null then 0 else 1
    {
      ok := AskGroup(now);
      if !ok && group.next != null {
        SwitchToBackup();
        ok := GetRoundRobinPeer(now);
      }
    }

    /** The first scan of ngx_http_upstream_get_least_conn_peer. */
    method LeastScan(now: int) returns (best: Option<nat>, many: bool)
      requires Valid()
      ensures (best, many) == LeastTo(group.peer[..], Candidates(group.peer[..], tried[..], now), group.peer.Length)
    {
      ghost var s, c := group.peer[..], Candidates(group.peer[..], tried[..], now);
      best, many := None, false;
      for i := 0 to group.peer.Length
        invariant (best, many) == LeastTo(s, c, i)
      {
        var free := Usable(i, now);
        if !free {
          continue;
        }
        var p := group.peer[i];
        if best == None || p.conns * group.peer[best.value].weight < group.peer[best.value].conns * p.weight {
          best, many := Some(i), false;
        } else if p.conns * group.peer[best.value].weight == group.peer[best.value].conns * p.weight {
          many := true;
        }
      }
    }

    /** The conditions under which the second scan passes over peer i, best being a tied peer. */
    method NotTied(i: nat, best: nat, now: int, ghost s: seq<Peer>, ghost t: seq<bool>, ghost first: nat)
      returns (skip: bool)
      requires Valid() && Weighted(s) && |s| == group.peer.Length && i < |s| && best < |s| && first < |s|
      requires t == Tied(s, Candidates(s, tried[..], now), first) && t[best]
      requires group.peer[i] == s[i] && SameStanding(s[best], group.peer[best])
      ensures skip == !t[i]
    {
      TieIsShared(s, Candidates(s, tried[..], now), first, best, i);
      var p := group.peer[i];
      if tried[i / WORD_BITS][i % WORD_BITS] {
        return true;
      }
      if p.down {
        return true;
      }
      if p.conns * group.peer[best].weight != group.peer[best].conns * p.weight {
        return true;
      }
      if p.maxFails != 0 && p.fails >= p.maxFails && now - p.checked <= p.failTimeout {
        return true;
      }
      if p.maxConns != 0 && p.conns >= p.maxConns {
        return true;
      }
      return false;
    }

    lemma TieIsShared(s: seq<Peer>, c: seq<bool>, first: nat, best: nat, i: nat)
      requires |c| == |s| && first < |s| && best < |s| && i < |s| && Weighted(s) && Tied(s, c, first)[best]
      ensures SameLoad(s[i], s[best]) <==> SameLoad(s[i], s[first])
    {
      LoadTransitive(s[i], s[best], s[first]);
      LoadTransitive(s[i], s[first], s[best]);
    }

    lemma TiesStartAt(s: seq<Peer>, c: seq<bool>, first: nat)
      requires |c| == |s| && first < |s| && Weighted(s) && LeastTo(s, c, |s|).0 == Some(first)
      ensures Tied(s, c, first)[first] && forall i :: 0 <= i < first ==> !Tied(s, c, first)[i]
    {
      LeastIs(s, c, |s|);
    }

    /** The second scan: it starts at the first minimum and moves best as it goes. */
    method TieScan(first: nat, now: int, ghost s: seq<Peer>, ghost t: seq<bool>, ghost words: seq<Word>)
      returns (best: nat, total: int)
      requires Valid() && |t| == |s| == group.peer.Length && tried[..] == words && first < |s|
      requires TiesTo(s, t, first, words, now, |s|) && ScanIs(s, t, first, first, first, 0)
      modifies group.peer
      ensures ScanIs(s, t, first, |s|, best, total)
    {
      best := first;
      total := 0;
      for i := first to group.peer.Length
        invariant tried[..] == words && ScanIs(s, t, first, i, best, total)
      {
        best, total := TieStep(i, best, total, now, s, t, first, words);
      }
    }

    /** Peers, best and total are those of the second scan before peer i. */
    ghost predicate ScanIs(s: seq<Peer>, t: seq<bool>, first: nat, i: nat, best: nat, total: int)
      requires |t| == |s| && i <= |s|
      reads this, group.peer
    {
      var scan := ScanTo(s, t, first, i);
      group.peer[..] == scan.0 && best == scan.1 && total == scan.2
    }

    /** One peer of the second scan. */
    method TieStep(i: nat, best0: nat, total0: int, now: int, ghost s: seq<Peer>, ghost t: seq<bool>, ghost first: nat,
                   ghost words: seq<Word>)
      returns (best: nat, total: int)
      requires Valid() && |t| == |s| == group.peer.Length && first <= i < |s|
      requires tried[..] == words && TiesTo(s, t, first, words, now, |s|)
      requires ScanIs(s, t, first, i, best0, total0)
      modifies group.peer
      ensures ScanIs(s, t, first, i + 1, best, total)
    {
      TiesAll(s, t, first, words, now);
      ScanHasBest(s, t, first, i);
      best, total := Consider(i, best0, total0, now, s, t, first, words);
    }

    /** Whether it is bumped, and whether it becomes the best. */
    method Consider(i: nat, best0: nat, total0: int, now: int, ghost s: seq<Peer>, ghost t: seq<bool>,
                    ghost first: nat, ghost words: seq<Word>)
      returns (best: nat, total: int)
      requires Valid() && |s| == group.peer.Length && first <= i < |s|
      requires tried[..] == words && TiesOf(s, t, first, words, now)
      requires ScanIs(s, t, first, i, best0, total0) && best0 < |s| && t[best0]
      requires HeaviestTo(BumpTo(s, t, |s|), t, i) == if i == first then None else Some(best0)
      modifies group.peer
      ensures ScanIs(s, t, first, i + 1, best, total)
    {
      best, total := best0, total0;
      ghost var before := group.peer[..];
      assert before[i] == s[i] && SameStanding(s[best], before[best]);
      var skip := NotTied(i, best, now, s, t, first);
      if skip {
        assert group.peer[..] == BumpTo(s, t, i + 1);
        return;
      }
      var p := group.peer[i];
      group.peer[i] := Bumped(p);
      assert group.peer[..] == before[i := Bumped(s[i])];
      assert group.peer[..] == BumpTo(s, t, i + 1);
      total := total + p.effectiveWeight;
      if group.peer[i].currentWeight > group.peer[best].currentWeight {
        best := i;
      }
    }

    /** One group's part of ngx_http_upstream_get_least_conn_peer, for a group of several peers. */
    method AskLeastGroup(now: int) returns (ok: bool)
      requires Valid() && !group.single && Weighted(group.peer[..])
      modifies this`current, group.peer, tried
      ensures var a := AskLeastConn(false, old(group.peer[..]), old(tried[..]), now);
              && group.peer[..] == a.peers && tried[..] == a.words && ok == a.taken.Some?
              && current == (if ok then a.taken.value else old(current))
    {
      ghost var s, c := group.peer[..], Candidates(group.peer[..], tried[..], now);
      var first, many := LeastScan(now);
      if first == None {
        return false;
      }
      var best, total := first.value, 0;
      if many {
        TiesStartAt(s, c, best);
        TiesFrom(s, Tied(s, c, best), best, tried[..], now, |s|);
        ScanBegins(s, Tied(s, c, best), best);
        ScanHasBest(s, Tied(s, c, best), best, |s|);
        best, total := TieScan(best, now, s, Tied(s, c, best), tried[..]);
      }
      group.peer[best] := Settled(group.peer[best], total, now);
      group.peer[best] := Taken(group.peer[best]);
      current := best;
      MarkTried(best);
      return true;
    }

    /** ngx_http_upstream_get_least_conn_peer; false is NGX_BUSY. */
    method GetLeastConnPeer(now: int) returns (ok: bool)
      requires Valid() && Weighted(group.peer[..])
      requires group.next != null ==> Weighted(group.next.peer[..])
      modifies this`current, this`group, group.peer, tried
      modifies if group.next != null then {group.next.peer} else {}
      ensures Valid() && Served(ByLeastConn, now, ok)
      decreases if group.next == null then 0 else 1
    {
      if group.single {
        ok := GetRoundRobinPeer(now);
        return;
      }
      ok := AskLeastGroup(now);
      if !ok && group.next != null {
        SwitchToBackup();
        ok := GetLeastConnPeer(now);
      }
    }

    /** The current peer, and nothing else, is as after a release. */
    twostate predicate Freed(failed: bool, now: int)
      requires old(current < group.peer.Length)
      reads *
    {
      var p := Released(old(group.peer[current]), group.single, failed, now);
      unchanged(this) && unchanged(tried) && group.peer[..] == old(group.peer[..])[old(current) := p]
    }

    /** ngx_http_upstream_free_round_robin_peer; tries is pc->tries. */
    method FreePeer(failed: bool, now: int, tries: nat) returns (left: nat)
      requires Valid() && current < group.peer.Length
      modifies group.peer
      ensures Freed(failed, now)
      ensures left == (if group.single || tries == 0 then 0 else tries - 1)
    {
      var p := group.peer[current];
      if group.single {
        group.peer[current] := p.(conns := p.conns - 1);
        return 0;
      }
      if failed {
        p := p.(fails := p.fails + 1, accessed := now, checked := now);
        if p.maxFails != 0 {
          p := p.(effectiveWeight := p.effectiveWeight - p.weight / p.maxFails);
        }
        if p.effectiveWeight < 0 {
          p := p.(effectiveWeight := 0);
        }
      } else if p.accessed < p.checked {
        p := p.(fails := 0);
      }
      group.peer[current] := p.(conns := p.conns - 1);
      left := if tries > 0 then tries - 1 else 0;
    }
  }

  class IpHashData {
    const rrp: PeerData
    const addr: seq<nat>
    var hash: nat
    var tries: nat

    constructor (rrp: PeerData, addr: seq<nat>)
      ensures this.rrp == rrp && this.addr == addr && hash == 89 && tries == 0
    {
      this.rrp, this.addr, hash, tries := rrp, addr, 89, 0;
    }

    /** The weight walk of one try. */
    method Walk(hash: nat) returns (p: nat)
      requires rrp.Valid() && rrp.group.totalWeight == TotalWeight(rrp.group.peer[..]) > 0
      ensures p < rrp.group.peer.Length && p == PeerAt(rrp.group.peer[..], hash % rrp.group.totalWeight)
    {
      ghost var s := rrp.group.peer[..];
      var w := hash % rrp.group.totalWeight;
      p := 0;
      while w >= rrp.group.peer[p].weight
        invariant p < |s| && 0 <= w < TotalWeight(s[p..])
        invariant p + PeerAt(s[p..], w) == PeerAt(s, hash % rrp.group.totalWeight)
        decreases |s| - p
      {
        assert s[p..][1..] == s[p + 1..];
        w := w - rrp.group.peer[p].weight;
        p := p + 1;
      }
    }

    method HashOnce(from: nat) returns (h: nat)
      ensures h == HashTo(from, addr, |addr|)
      ensures |addr| > 0 || from < 6271 ==> h == (from * Power(113, |addr|) + Sum(addr, 0, |addr|)) % 6271
    {
      h := from;
      for i := 0 to |addr|
        invariant h == HashTo(from, addr, i)
      {
        h := (h * 113 + addr[i]) % 6271;
      }
      if |addr| > 0 || from < 6271 {
        HashIs(from, addr, |addr|);
      }
    }

    ghost predicate Ready()
      reads this, rrp, rrp.group.peer
    {
      rrp.Valid() && rrp.group.totalWeight == TotalWeight(rrp.group.peer[..]) > 0
    }

    /** A probe that hits takes the peer; otherwise round robin answers. */
    twostate predicate Served(now: int, ok: bool)
      requires old(Ready())
      reads *
    {
      var s, words := old(rrp.group.peer[..]), old(rrp.tried[..]);
      if old(tries) > MAX_TRIES || old(rrp.group).single then
        rrp.Served(ByRoundRobin, now, ok) && tries == old(tries) && hash == old(hash)
      else
        var r := Probe(s, Candidates(s, words, now), addr, old(hash), old(tries));
        && tries == r.tries
        && (r.found == None ==> rrp.Served(ByRoundRobin, now, ok) && hash == old(hash))
        && (r.found.Some? ==>
              && ok && hash == r.hash && rrp.group == old(rrp.group) && rrp.current == r.found.value
              && rrp.group.peer[..] == s[r.found.value := Taken(Settled(s[r.found.value], 0, now))]
              && rrp.tried[..] == Marked(words, r.found.value)
              && (rrp.group.next != null ==>
                    rrp.group.next.peer[..] == old(if rrp.group.next != null then rrp.group.next.peer[..] else [])))
    }

    /** ngx_http_upstream_get_ip_hash_peer; false is NGX_BUSY. */
    method GetIpHashPeer(now: int) returns (ok: bool)
      requires Ready()
      modifies this, rrp, rrp.group.peer, rrp.tried
      modifies if rrp.group.next != null then {rrp.group.next.peer} else {}
      ensures rrp.Valid() && Served(now, ok)
    {
      if tries > MAX_TRIES || rrp.group.single {
        ok := rrp.GetRoundRobinPeer(now);
        return;
      }
      var found, h := Search(now);
      if found == None {
        ok := rrp.GetRoundRobinPeer(now);
        return;
      }
      Hit(found.value, now);
      hash := h;
      ok := true;
    }

    /** What a hit changes. */
    method Hit(p: nat, now: int)
      requires rrp.Valid() && p < rrp.group.peer.Length
      modifies rrp`current, rrp.group.peer, rrp.tried
      ensures rrp.current == p && rrp.tried[..] == Marked(old(rrp.tried[..]), p)
      ensures rrp.group.peer[..] == old(rrp.group.peer[..])[p := Taken(Settled(old(rrp.group.peer[p]), 0, now))]
    {
      rrp.current := p;
      rrp.group.peer[p] := Settled(Taken(rrp.group.peer[p]), 0, now);
      rrp.MarkTried(p);
    }

    /** The retry loop. */
    method Search(now: int) returns (found: Option<nat>, h: nat)
      requires rrp.Valid() && rrp.group.totalWeight == TotalWeight(rrp.group.peer[..]) > 0 && tries <= MAX_TRIES
      modifies this`tries
      ensures var s := rrp.group.peer[..];
              Probed(found, h, tries) == Probe(s, Candidates(s, rrp.tried[..], now), addr, hash, old(tries))
    {
      ghost var s := rrp.group.peer[..];
      ghost var c := Candidates(s, rrp.tried[..], now);
      h := hash;
      while true
        invariant tries <= MAX_TRIES && Probe(s, c, addr, h, tries) == Probe(s, c, addr, hash, old(tries))
        decreases MAX_TRIES - tries
      {
        h := HashOnce(h);
        var p := Walk(h);
        var free := rrp.Usable(p, now);
        if free {
          return Some(p), h;
        }
        tries := tries + 1;
        if tries > MAX_TRIES {
          return None, h;
        }
      }
    }
  }
}

/** L2 bridge domains: created on first use, deleted when their last interface leaves. */
module Bridge {
  import opened Vpp

  /** Interfaces, sockets and the memberships of every interface but `x` are as before. */
  ghost predicate OnlyMoves(t: Tables, t': Tables, x: nat) {
    && t'.sockets == t.sockets && t'.ifaces == t.ifaces
    && forall c, y :: y != x ==> (InBridge(t', c, y) <==> InBridge(t, c, y))
  }

  /** Whether the bridge domain is there and, if so, how many interfaces it has: so a domain is
      found without members exactly when it can be deleted. */
  method FindBridge(ch: Node, b: uint32) returns (found: bool, count: nat)
    ensures found <==> b in ch.vpp.bridges
    ensures found && count == 0 <==> b in ch.vpp.bridges && ch.vpp.bridges[b] == {}
  {
    found, count := false, 0;
    var replies := ch.DumpBridge(b);
    for i := 0 to |replies|
      invariant found <==> i > 0
      invariant i > 0 ==> count == replies[i - 1]
    {
      count := replies[i];
      found := true;
    }
  }

  method CreateBridge(ch: Node, b: uint32) returns (ok: bool)
    requires Inv(ch.vpp)
    modifies ch`vpp, ch`lost
    ensures Inv(ch.vpp) && ch.lost >= old(ch.lost)
    ensures ok <==> ch.lost == old(ch.lost)
    ensures !ok || b in old(ch.vpp).bridges ==> ch.vpp == old(ch.vpp)
    ensures ok && b !in old(ch.vpp).bridges ==> ch.vpp == old(ch.vpp).(bridges := old(ch.vpp).bridges[b := {}])
    ensures b in old(ch.vpp).bridges ==> ok
  {
    var found, _ := FindBridge(ch, b);
    if found {
      return true;
    }
    ok := ch.AddBridgeDomain(b);
  }

  /** A bridge domain that is absent or still has members is left alone. */
  method DeleteBridge(ch: Node, b: uint32) returns (ok: bool)
    requires Inv(ch.vpp)
    modifies ch`vpp, ch`lost
    ensures Inv(ch.vpp) && ch.lost >= old(ch.lost)
    ensures ok <==> ch.lost == old(ch.lost)
    ensures b !in old(ch.vpp).bridges || old(ch.vpp).bridges[b] != {} ==> ok && ch.vpp == old(ch.vpp)
    ensures ok && b in old(ch.vpp).bridges && old(ch.vpp).bridges[b] == {} ==>
              ch.vpp == old(ch.vpp).(bridges := old(ch.vpp).bridges - {b})
    ensures !ok ==> ch.vpp == old(ch.vpp)
  {
    var found, count := FindBridge(ch, b);
    if !found || count != 0 {
      return true;
    }
    ok := ch.DelBridgeDomain(b);
  }

  /** `x` in `b`, and in no other bridge domain. */
  function Joined(t: Tables, b: uint32, x: nat): Tables {
    t.(bridges := map c | c in t.bridges :: if c == b then t.bridges[c] + {x} else t.bridges[c] - {x})
  }

  lemma JoinedFacts(t: Tables, b: uint32, x: nat)
    requires Inv(t) && b in t.bridges && x in t.ifaces
    ensures Inv(Joined(t, b, x)) && OnlyMoves(t, Joined(t, b, x), x) && Joined(t, b, x).bridges.Keys == t.bridges.Keys
    ensures forall c :: InBridge(Joined(t, b, x), c, x) <==> c == b
  {
  }

  lemma CreatedMoves(t: Tables, t': Tables, b: uint32, x: nat)
    requires t' == t || (b !in t.bridges && t' == t.(bridges := t.bridges[b := {}]))
    ensures OnlyMoves(t, t', x) && forall c :: InBridge(t', c, x) <==> InBridge(t, c, x)
  {
  }

  lemma MovesTransitive(t: Tables, t1: Tables, t2: Tables, x: nat)
    requires OnlyMoves(t, t1, x) && OnlyMoves(t1, t2, x)
    ensures OnlyMoves(t, t2, x)
  {
    forall c, y | y != x ensures InBridge(t2, c, y) <==> InBridge(t, c, y) {
      assert InBridge(t1, c, y) <==> InBridge(t, c, y);
    }
  }

  method AddBridgeInterface(ch: Node, b: uint32, x: nat) returns (ok: bool)
    requires Inv(ch.vpp)
    modifies ch`vpp, ch`lost
    ensures Inv(ch.vpp) && OnlyMoves(old(ch.vpp), ch.vpp, x) && ch.lost >= old(ch.lost)
    ensures x in old(ch.vpp).ifaces ==> (ok <==> ch.lost == old(ch.lost))
    ensures ok ==> ch.vpp.bridges.Keys == old(ch.vpp).bridges.Keys + {b}
    ensures ok ==> forall c :: InBridge(ch.vpp, c, x) <==> c == b
    ensures !ok ==> forall c :: InBridge(ch.vpp, c, x) <==> InBridge(old(ch.vpp), c, x)
    ensures !ok ==> old(ch.vpp).bridges.Keys <= ch.vpp.bridges.Keys <= old(ch.vpp).bridges.Keys + {b}
  {
    hide Inv, OnlyMoves, InBridge;
    ok := CreateBridge(ch, b);
    ghost var t1 := ch.vpp;
    CreatedMoves(old(ch.vpp), t1, b, x);
    if ok {
      ok := ch.JoinBridge(b, x);
      if ok {
        JoinedFacts(t1, b, x);
        MovesTransitive(old(ch.vpp), t1, ch.vpp, x);
      }
    }
  }

  function Detached(t: Tables, b: uint32, x: nat): Tables {
    if b in t.bridges then t.(bridges := t.bridges[b := t.bridges[b] - {x}]) else t
  }

  /** `x` out of `b`, and `b` gone when nothing else was in it. */
  function Left(t: Tables, b: uint32, x: nat): Tables {
    if b in t.bridges && t.bridges[b] <= {x} then t.(bridges := t.bridges - {b}) else Detached(t, b, x)
  }

  lemma DetachedFacts(t: Tables, b: uint32, x: nat)
    requires Inv(t)
    ensures Inv(Detached(t, b, x)) && OnlyMoves(t, Detached(t, b, x), x)
  {
  }

  lemma LeftFacts(t: Tables, b: uint32, x: nat)
    requires Inv(t)
    ensures Inv(Left(t, b, x)) && OnlyMoves(t, Left(t, b, x), x)
  {
  }

  /** Takes `x` out of `b`; the bridge domain goes exactly when nothing else is in it. */
  method RemoveBridgeInterface(ch: Node, b: uint32, x: nat) returns (ok: bool)
    requires Inv(ch.vpp)
    modifies ch`vpp, ch`lost
    ensures Inv(ch.vpp) && ch.lost >= old(ch.lost)
    ensures ok <==> ch.lost == old(ch.lost) && b in old(ch.vpp).bridges
    ensures ok ==> b in old(ch.vpp).bridges && ch.vpp == Left(old(ch.vpp), b, x)
    ensures !ok ==> ch.vpp == old(ch.vpp) || ch.vpp == Detached(old(ch.vpp), b, x)
  {
    hide Inv, OnlyMoves;
    ok := ch.LeaveBridge(b, x);
    DetachedFacts(old(ch.vpp), b, x);
    if ok {
      ok := DeleteBridge(ch, b);
      LeftIsDelete(old(ch.vpp), b, x);
    }
  }

  lemma LeftIsDelete(t: Tables, b: uint32, x: nat)
    requires b in t.bridges
    ensures t.bridges[b] <= {x} <==> Detached(t, b, x).bridges[b] == {}
    ensures t.bridges[b] <= {x} ==> Left(t, b, x) == Detached(t, b, x).(bridges := Detached(t, b, x).bridges - {b})
  {
    if t.bridges[b] <= {x} {
      assert t.bridges - {b} == t.bridges[b := t.bridges[b] - {x}] - {b};
    }
  }
}

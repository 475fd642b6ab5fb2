/** One Sync's memo of NAD reads, and the desired state computed through it. */
module Nads {
  import opened Wrappers
  import opened Text
  import opened Dataplane
  import opened Desired
  import N = Networks

  function Key(ns: string, name: string): string {
    ns + "/" + name
  }

  /** Keys are injective as long as the namespaces hold no slash. */
  lemma KeyInjective(ns: string, name: string, ns': string, name': string)
    requires '/' !in ns && '/' !in ns' && Key(ns, name) == Key(ns', name')
    ensures ns == ns' && name == name'
  {
    assert Key(ns, name) == ns + ['/'] + name && Key(ns', name') == ns' + ['/'] + name';
    IndexOfFirst(ns, '/', name);
    IndexOfFirst(ns', '/', name');
    assert ns == Key(ns, name)[..|ns|] && ns' == Key(ns, name)[..|ns'|];
    assert name == Key(ns, name)[|ns| + 1..] && name' == Key(ns, name)[|ns| + 1..];
  }

  /** Where an answer comes from: the first read under the same key, or the reference itself. */
  function Source(sent: seq<(string, string)>, ns: string, name: string): (string, string) {
    if sent == [] then (ns, name)
    else if Key(sent[0].0, sent[0].1) == Key(ns, name) then sent[0]
    else Source(sent[1..], ns, name)
  }

  /** The reference shares its key with no other one of the sent. */
  ghost predicate Alone(sent: seq<(string, string)>, ns: string, name: string) {
    forall i :: 0 <= i < |sent| && Key(sent[i].0, sent[i].1) == Key(ns, name) ==> sent[i] == (ns, name)
  }

  lemma {:induction false} SourceAlone(sent: seq<(string, string)>, ns: string, name: string)
    requires forall i, j :: 0 <= i < j < |sent| ==> Key(sent[i].0, sent[i].1) != Key(sent[j].0, sent[j].1)
    ensures Source(sent, ns, name) == (ns, name) <==> Alone(sent, ns, name)
    ensures Source(sent, ns, name) == (ns, name) || Source(sent, ns, name) in sent
    ensures Key(Source(sent, ns, name).0, Source(sent, ns, name).1) == Key(ns, name)
  {
    hide Key;
    if sent != [] {
      if Key(sent[0].0, sent[0].1) != Key(ns, name) {
        SourceAlone(sent[1..], ns, name);
        assert Alone(sent, ns, name) <==> Alone(sent[1..], ns, name) by {
          forall i | 0 < i < |sent| ensures sent[i] == sent[1..][i - 1] {
          }
        }
      }
    }
  }

  /** The memo answers as the API server would, whatever that says, if and only if no other
      reference was read under the same key. */
  lemma TransparentExactly(sent: seq<(string, string)>, ns: string, name: string)
    requires forall i, j :: 0 <= i < j < |sent| ==> Key(sent[i].0, sent[i].1) != Key(sent[j].0, sent[j].1)
    ensures (forall fetch: Lookup :: Answer(fetch, sent, ns, name) == fetch(ns, name)) <==> Alone(sent, ns, name)
  {
    SourceAlone(sent, ns, name);
    hide Source, Alone;
    var src := Source(sent, ns, name);
    if src != (ns, name) {
      var fetch: Lookup := (a, b) => if (a, b) == src then Some("") else None;
      assert Answer(fetch, sent, ns, name) != fetch(ns, name);
    }
  }

  function Answer(fetch: Lookup, sent: seq<(string, string)>, ns: string, name: string): Option<string> {
    fetch(Source(sent, ns, name).0, Source(sent, ns, name).1)
  }

  /** Two references with a slash in a namespace that share their key: the second one read gets
      the first one's answer. */
  lemma KeyCollision(fetch: Lookup)
    ensures Key("a/b", "c") == Key("a", "b/c")
    ensures Answer(fetch, [("a/b", "c")], "a", "b/c") == fetch("a/b", "c")
  {
    assert Key("a/b", "c") == "a/b/c" && Key("a", "b/c") == "a/b/c";
  }

  /** `lookup` gives the remembered answers. */
  ghost predicate Agrees(memo: map<string, Option<string>>, lookup: Lookup) {
    forall ns, name :: Key(ns, name) in memo ==> lookup(ns, name) == memo[Key(ns, name)]
  }

  ghost predicate Extends(memo: map<string, Option<string>>, memo': map<string, Option<string>>) {
    forall k :: k in memo ==> k in memo' && memo'[k] == memo[k]
  }

  lemma AgreesEarlier(memo: map<string, Option<string>>, memo': map<string, Option<string>>, lookup: Lookup)
    requires Extends(memo, memo') && Agrees(memo', lookup)
    ensures Agrees(memo, lookup)
  {
    hide Key;
  }

  class NadCache {
    /** The API server's answer, stable during one Sync. */
    const fetch: Lookup
    var cached: map<string, string>
    var failed: set<string>
    /** What is remembered, errors as None. */
    ghost var memo: map<string, Option<string>>
    /** The reads sent to the API server so far. */
    ghost var fetched: seq<(string, string)>

    constructor (fetch: Lookup)
      ensures Valid() && this.fetch == fetch && fetched == [] && memo == map[]
    {
      this.fetch, cached, failed, memo, fetched := fetch, map[], {}, map[], [];
    }

    ghost predicate Valid()
      reads this
    {
      && memo.Keys == cached.Keys + failed
      && (forall k :: k in memo ==> memo[k] == if k in failed then None else Some(cached[k]))
      && Book(fetch, memo, fetched)
    }

    /** The answer is the API server's to the first reference read under this key, which is
        asked for once. */
    method Get(ns: string, name: string) returns (r: Option<string>)
      requires Valid()
      modifies this
      ensures Valid() && r == Answer(fetch, old(fetched), ns, name)
      ensures Key(ns, name) in memo && memo[Key(ns, name)] == r && Extends(old(memo), memo)
      ensures fetched == if Key(ns, name) in old(memo) then old(fetched) else old(fetched) + [(ns, name)]
    {
      hide Key, Book, Answer;
      var key := Key(ns, name);
      BookAnswer(fetch, memo, fetched, ns, name);
      if key in failed {
        return None;
      }
      if key in cached {
        return Some(cached[key]);
      }
      r := fetch(ns, name);
      BookEntry(fetch, memo, fetched, ns, name);
      if r == None {
        failed := failed + {key};
      } else {
        cached := cached[key := r.value];
      }
      memo := memo[key := r];
      fetched := fetched + [(ns, name)];
    }
  }

  /** Under each key what the API server said about the one reference read under it. */
  ghost predicate Book(fetch: Lookup, memo: map<string, Option<string>>, fetched: seq<(string, string)>) {
    && (forall i, j :: 0 <= i < j < |fetched| ==> Key(fetched[i].0, fetched[i].1) != Key(fetched[j].0, fetched[j].1))
    && Recalls(fetch, memo, fetched)
    && (forall i :: 0 <= i < |fetched| ==>
          Key(fetched[i].0, fetched[i].1) in memo && memo[Key(fetched[i].0, fetched[i].1)] == fetch(fetched[i].0, fetched[i].1))
  }

  /** What is remembered was said about a reference that was read. */
  ghost predicate Recalls(nads: Lookup, memo: map<string, Option<string>>, sent: seq<(string, string)>) {
    forall k :: k in memo ==> exists i :: 0 <= i < |sent| && Key(sent[i].0, sent[i].1) == k && memo[k] == nads(sent[i].0, sent[i].1)
  }

  lemma BookAnswer(fetch: Lookup, memo: map<string, Option<string>>, fetched: seq<(string, string)>, ns: string, name: string)
    requires Book(fetch, memo, fetched)
    ensures Answer(fetch, fetched, ns, name) == if Key(ns, name) in memo then memo[Key(ns, name)] else fetch(ns, name)
  {
    hide Key;
    SourceAlone(fetched, ns, name);
    if Key(ns, name) in memo {
      var i :| 0 <= i < |fetched| && Key(fetched[i].0, fetched[i].1) == Key(ns, name) && memo[Key(ns, name)] == fetch(fetched[i].0, fetched[i].1);
      SourceRemembered(fetch, fetched, memo, ns, name);
    } else {
      assert Alone(fetched, ns, name);
    }
  }

  lemma BookEntry(fetch: Lookup, memo: map<string, Option<string>>, fetched: seq<(string, string)>, ns: string, name: string)
    requires Book(fetch, memo, fetched) && Key(ns, name) !in memo
    ensures Book(fetch, memo[Key(ns, name) := fetch(ns, name)], fetched + [(ns, name)])
  {
    hide Key;
    var memo', fetched' := memo[Key(ns, name) := fetch(ns, name)], fetched + [(ns, name)];
    assert fetched'[|fetched|] == (ns, name);
    forall k | k in memo'
      ensures exists i :: 0 <= i < |fetched'| && Key(fetched'[i].0, fetched'[i].1) == k && memo'[k] == fetch(fetched'[i].0, fetched'[i].1)
    {
      if k != Key(ns, name) {
        var i :| 0 <= i < |fetched| && Key(fetched[i].0, fetched[i].1) == k && memo[k] == fetch(fetched[i].0, fetched[i].1);
        assert fetched'[i] == fetched[i];
      }
    }
  }

  lemma {:induction false} SourceRemembered(fetch: Lookup, fetched: seq<(string, string)>, memo: map<string, Option<string>>, ns: string, name: string)
    requires forall i :: 0 <= i < |fetched| ==>
               Key(fetched[i].0, fetched[i].1) in memo && memo[Key(fetched[i].0, fetched[i].1)] == fetch(fetched[i].0, fetched[i].1)
    requires exists i :: 0 <= i < |fetched| && Key(fetched[i].0, fetched[i].1) == Key(ns, name)
    ensures Key(ns, name) in memo && memo[Key(ns, name)] == Answer(fetch, fetched, ns, name)
  {
    hide Key;
    if Key(fetched[0].0, fetched[0].1) != Key(ns, name) {
      var i :| 0 <= i < |fetched| && Key(fetched[i].0, fetched[i].1) == Key(ns, name);
      assert fetched[1..][i - 1] == fetched[i];
      SourceRemembered(fetch, fetched[1..], memo, ns, name);
    }
  }

  // ----- The desired state of one pod, as the code computes it

  lemma {:induction false} CollectFails(vs: seq<Verdict>, i: nat)
    requires i <= |vs| && Collect(vs[..i]) == None
    ensures Collect(vs) == None
    decreases |vs|
  {
    if i < |vs| {
      assert vs[..|vs| - 1][..i] == vs[..i];
      CollectFails(vs[..|vs| - 1], i);
    } else {
      assert vs[..i] == vs;
    }
  }

  lemma CollectSnoc(vs: seq<Verdict>, i: nat)
    requires i < |vs|
    ensures Collect(vs[..i + 1]) == match (Collect(vs[..i]), vs[i]) {
                                      case (None, _) => None
                                      case (Some(_), Failed) => None
                                      case (Some(ms), NotOurs) => Some(ms)
                                      case (Some(ms), Wanted(m)) => Some(ms + [m])
                                    }
  {
    assert vs[..i + 1][..i] == vs[..i];
  }

  lemma {:induction false} HostsFail(lib: Library, lookup: Lookup, nets: seq<N.NetworkRef>, i: nat)
    requires i <= |nets| && Hosts(lib, lookup, nets[..i]) == None
    ensures Hosts(lib, lookup, nets) == None
    decreases |nets|
  {
    if i < |nets| {
      assert nets[..|nets| - 1][..i] == nets[..i];
      HostsFail(lib, lookup, nets[..|nets| - 1], i);
    } else {
      assert nets[..i] == nets;
    }
  }

  method ReadHost(lib: Library, net: N.NetworkRef, cache: NadCache) returns (host: Option<UserSpaceConf>)
    requires cache.Valid()
    modifies cache
    ensures cache.Valid() && Extends(old(cache.memo), cache.memo)
    ensures cache.fetched == old(cache.fetched) || cache.fetched == old(cache.fetched) + [(net.ns, net.name)]
    ensures forall lookup: Lookup :: Agrees(cache.memo, lookup) ==> host == HostOf(lib, lookup, net)
  {
    hide Key, Agrees, Extends, Answer, Book;
    var cfg := cache.Get(net.ns, net.name);
    forall lookup: Lookup | Agrees(cache.memo, lookup) ensures lookup(net.ns, net.name) == cfg {
      AgreesAt(cache.memo, lookup, net.ns, net.name);
    }
    if cfg == None {
      return None;
    }
    var nc := lib.netConf(cfg.value);
    if nc == None {
      return None;
    }
    return Some(nc.value.hostConf);
  }

  /** The host configurations, each NAD read through the memo: what any lookup with the
      remembered answers gives. */
  method ReadHosts(lib: Library, nets: seq<N.NetworkRef>, cache: NadCache) returns (hosts: Option<seq<UserSpaceConf>>)
    requires cache.Valid()
    modifies cache
    ensures cache.Valid() && Extends(old(cache.memo), cache.memo) && ReadOnly(old(cache.fetched), cache.fetched, nets)
    ensures forall lookup: Lookup :: Agrees(cache.memo, lookup) ==> hosts == Hosts(lib, lookup, nets)
  {
    hide Key, Agrees, Extends, ReadOnly, Answer, HostOf, Book;
    var hs: seq<UserSpaceConf> := [];
    NothingRead(cache.memo, cache.fetched, nets);
    for i := 0 to |nets|
      invariant cache.Valid() && Extends(old(cache.memo), cache.memo) && ReadOnly(old(cache.fetched), cache.fetched, nets)
      invariant forall lookup: Lookup :: Agrees(cache.memo, lookup) ==> Hosts(lib, lookup, nets[..i]) == Some(hs)
    {
      ghost var memo, fetched := cache.memo, cache.fetched;
      assert nets[..i + 1][..i] == nets[..i];
      var host := ReadHost(lib, nets[i], cache);
      OneMoreRead(old(cache.memo), memo, cache.memo, old(cache.fetched), fetched, cache.fetched, nets, i);
      forall lookup: Lookup | Agrees(cache.memo, lookup) ensures Hosts(lib, lookup, nets[..i]) == Some(hs) {
        AgreesEarlier(memo, cache.memo, lookup);
      }
      if host == None {
        forall lookup: Lookup | Agrees(cache.memo, lookup) ensures Hosts(lib, lookup, nets) == None {
          HostsFail(lib, lookup, nets, i + 1);
        }
        return None;
      }
      hs := hs + [host.value];
    }
    assert nets[..|nets|] == nets;
    return Some(hs);
  }

  lemma AgreesAt(memo: map<string, Option<string>>, lookup: Lookup, ns: string, name: string)
    requires Agrees(memo, lookup) && Key(ns, name) in memo
    ensures lookup(ns, name) == memo[Key(ns, name)]
  {
  }

  /** Only references of `nets` were read in between. */
  ghost predicate ReadOnly(sent: seq<(string, string)>, sent': seq<(string, string)>, nets: seq<N.NetworkRef>) {
    forall r :: r in sent' ==> r in sent || exists k :: 0 <= k < |nets| && r == (nets[k].ns, nets[k].name)
  }

  lemma NothingRead(memo: map<string, Option<string>>, sent: seq<(string, string)>, nets: seq<N.NetworkRef>)
    ensures Extends(memo, memo) && ReadOnly(sent, sent, nets)
  {
  }

  lemma OneMoreRead(memo0: map<string, Option<string>>, memo1: map<string, Option<string>>, memo2: map<string, Option<string>>,
                    sent0: seq<(string, string)>, sent1: seq<(string, string)>, sent2: seq<(string, string)>,
                    nets: seq<N.NetworkRef>, i: nat)
    requires Extends(memo0, memo1) && Extends(memo1, memo2) && ReadOnly(sent0, sent1, nets) && i < |nets|
    requires sent2 == sent1 || sent2 == sent1 + [(nets[i].ns, nets[i].name)]
    ensures Extends(memo0, memo2) && ReadOnly(sent0, sent2, nets)
  {
  }

  /** The entries of a pod with a single network. */
  method BuildDesired(es: seq<ConfigurationData>, nets: seq<N.NetworkRef>, host: UserSpaceConf, sharedDir: string)
    returns (out: Option<seq<Memif>>)
    requires |nets| == 1
    ensures out == Collect(Verdicts(es, nets, [host], sharedDir))
  {
    hide DesiredMemif;
    var ms: seq<Memif> := [];
    ghost var vs := Verdicts(es, nets, [host], sharedDir);
    for i := 0 to |es|
      invariant Collect(vs[..i]) == Some(ms)
    {
      CollectSnoc(vs, i);
      match DesiredMemif(es[i], host, sharedDir) {
        case Failed =>
          CollectFails(vs, i + 1);
          return None;
        case NotOurs =>
        case Wanted(m) => ms := ms + [m];
      }
    }
    assert vs[..|es|] == vs;
    return Some(ms);
  }

  /** The entries of a pod with several networks, each matched by interface name. */
  method MatchDesired(es: seq<ConfigurationData>, nets: seq<N.NetworkRef>, hosts: seq<UserSpaceConf>, sharedDir: string)
    returns (out: Option<seq<Memif>>)
    requires |nets| == |hosts| && |nets| > 1
    ensures out == Collect(Verdicts(es, nets, hosts, sharedDir))
  {
    hide DesiredMemif, FirstMatch;
    var ms: seq<Memif> := [];
    ghost var vs := Verdicts(es, nets, hosts, sharedDir);
    for i := 0 to |es|
      invariant Collect(vs[..i]) == Some(ms)
    {
      CollectSnoc(vs, i);
      var k := 0;
      while k < |nets| && nets[k].iface != "" && nets[k].iface != es[i].ifName
        invariant 0 <= k <= |nets|
        invariant forall j :: 0 <= j < k ==> nets[j].iface != "" && nets[j].iface != es[i].ifName
      {
        k := k + 1;
      }
      assert k == NetworkOf(nets, es[i].ifName);
      if k < |nets| {
        match DesiredMemif(es[i], hosts[k], sharedDir) {
          case Failed =>
            CollectFails(vs, i + 1);
            return None;
          case NotOurs =>
          case Wanted(m) => ms := ms + [m];
        }
      }
    }
    assert vs[..|es|] == vs;
    return Some(ms);
  }

  /** The masters a pod declares, its NADs read through the memo: what any lookup with the
      remembered answers gives. */
  method EvaluatePod(lib: Library, pod: Pod, cache: NadCache) returns (out: Option<seq<Memif>>)
    requires cache.Valid()
    modifies cache
    ensures cache.Valid() && Extends(old(cache.memo), cache.memo) && ReadOnly(old(cache.fetched), cache.fetched, RefsOf(lib, pod))
    ensures forall lookup: Lookup :: Agrees(cache.memo, lookup) ==> out == DesiredForPod(lib, pod, lookup)
  {
    hide TrimSpace, N.Parse, Verdicts, Collect, Hosts, Agrees, Extends, ReadOnly, Key;
    NothingRead(cache.memo, cache.fetched, RefsOf(lib, pod));
    var nets := N.ParseNetworks(lib.refs, pod.networks, pod.ns);
    if |nets| == 0 {
      return Some([]);
    }
    if TrimSpace(pod.configData) == "" {
      return Some([]);
    }
    var entries := lib.entries(pod.configData);
    if entries == None {
      return None;
    }
    if |entries.value| == 0 || pod.sharedDir == "" {
      return Some([]);
    }
    var hosts := ReadHosts(lib, nets, cache);
    if hosts == None {
      return None;
    }
    RightLength(lib, nets, cache.memo, hosts.value);
    if |nets| == 1 {
      assert hosts.value == [hosts.value[0]];
      out := BuildDesired(entries.value, nets, hosts.value[0], pod.sharedDir);
      return;
    }
    out := MatchDesired(entries.value, nets, hosts.value, pod.sharedDir);
  }

  /** A lookup with the remembered answers, which asks afresh for everything else. */
  ghost function Remembering(memo: map<string, Option<string>>, fetch: Lookup): (lookup: Lookup)
    ensures Agrees(memo, lookup)
  {
    (ns, name) => if Key(ns, name) in memo then memo[Key(ns, name)] else fetch(ns, name)
  }

  lemma RightLength(lib: Library, nets: seq<N.NetworkRef>, memo: map<string, Option<string>>, hosts: seq<UserSpaceConf>)
    requires forall lookup: Lookup :: Agrees(memo, lookup) ==> Hosts(lib, lookup, nets) == Some(hosts)
    ensures |hosts| == |nets|
  {
    hide Hosts, Agrees;
    var lookup := Remembering(memo, (ns, name) => None);
    assert Agrees(memo, lookup);
  }

  // ----- The desired state of the node

  /** The references of the listed pods. */
  ghost predicate Refers(lib: Library, pods: seq<Pod>, ns: string, name: string) {
    exists i, k :: 0 <= i < |pods| && 0 <= k < |RefsOf(lib, pods[i])| && ns == RefsOf(lib, pods[i])[k].ns && name == RefsOf(lib, pods[i])[k].name
  }

  /** No two references of the listed pods share a key without being the same. */
  ghost predicate Apart(lib: Library, pods: seq<Pod>) {
    forall ns, name, ns', name' :: Refers(lib, pods, ns, name) && Refers(lib, pods, ns', name') && Key(ns, name) == Key(ns', name')
                                   ==> ns == ns' && name == name'
  }

  /** Namespaces without a slash, as Kubernetes has them, are enough. */
  lemma SlashFreeApart(lib: Library, pods: seq<Pod>)
    requires forall ns, name :: Refers(lib, pods, ns, name) ==> '/' !in ns
    ensures Apart(lib, pods)
  {
    hide Key, Refers;
    forall ns, name, ns', name' | Refers(lib, pods, ns, name) && Refers(lib, pods, ns', name') && Key(ns, name) == Key(ns', name')
      ensures ns == ns' && name == name'
    {
      KeyInjective(ns, name, ns', name');
    }
  }

  /** `lookup` answers for every reference what `nads` answers for one with the same key. */
  ghost predicate Memoized(nads: Lookup, lookup: Lookup) {
    forall ns, name :: SaidFor(nads, ns, name, lookup(ns, name))
  }

  ghost predicate SaidFor(nads: Lookup, ns: string, name: string, answer: Option<string>) {
    exists ns', name' :: Key(ns', name') == Key(ns, name) && answer == nads(ns', name')
  }

  /** Lookups that agree on a pod's references see the same masters. */
  lemma {:induction false} HostsSame(lib: Library, a: Lookup, b: Lookup, nets: seq<N.NetworkRef>)
    requires forall k :: 0 <= k < |nets| ==> a(nets[k].ns, nets[k].name) == b(nets[k].ns, nets[k].name)
    ensures Hosts(lib, a, nets) == Hosts(lib, b, nets)
  {
    if nets != [] {
      HostsSame(lib, a, b, nets[..|nets| - 1]);
    }
  }

  lemma {:induction false} DesiredSame(lib: Library, a: Lookup, b: Lookup, pods: seq<Pod>)
    requires forall ns, name :: Refers(lib, pods, ns, name) ==> a(ns, name) == b(ns, name)
    ensures DesiredOf(lib, pods, a) == DesiredOf(lib, pods, b)
  {
    hide RefsOf, Hosts, Collect, TrimSpace;
    if pods != [] {
      var n := |pods| - 1;
      forall ns, name | Refers(lib, pods[..n], ns, name) ensures a(ns, name) == b(ns, name) {
        ReferredMore(lib, pods, ns, name);
      }
      DesiredSame(lib, a, b, pods[..n]);
      var nets := RefsOf(lib, pods[n]);
      forall k | 0 <= k < |nets| ensures a(nets[k].ns, nets[k].name) == b(nets[k].ns, nets[k].name) {
        assert Refers(lib, pods, nets[k].ns, nets[k].name);
      }
      HostsSame(lib, a, b, nets);
    }
  }

  lemma ReferredMore(lib: Library, pods: seq<Pod>, ns: string, name: string)
    requires pods != [] && Refers(lib, pods[..|pods| - 1], ns, name)
    ensures Refers(lib, pods, ns, name)
  {
    hide RefsOf;
    var i, k :| 0 <= i < |pods| - 1 && 0 <= k < |RefsOf(lib, pods[..|pods| - 1][i])|
                && ns == RefsOf(lib, pods[..|pods| - 1][i])[k].ns && name == RefsOf(lib, pods[..|pods| - 1][i])[k].name;
    assert pods[..|pods| - 1][i] == pods[i];
  }

  /** All pods of the node, sharing one memo; a pod that cannot be evaluated is skipped. `seen`
      is what the memo made of `nads`: the same, when no two references share a key. */
  method DesiredMasters(lib: Library, pods: seq<Pod>, nads: Lookup) returns (desired: seq<Memif>, ghost seen: Lookup)
    ensures desired == DesiredOf(lib, pods, seen) && Memoized(nads, seen)
    ensures Apart(lib, pods) ==> desired == DesiredOf(lib, pods, nads)
  {
    hide DesiredForPod, Agrees, Extends, ReadOnly, Key, RefsOf, Apart, Refers;
    var cache := new NadCache(nads);
    desired := [];
    for i := 0 to |pods|
      invariant cache.Valid() && cache.fetch == nads && fresh(cache)
      invariant forall r :: r in cache.fetched ==> Refers(lib, pods, r.0, r.1)
      invariant forall lookup: Lookup :: Agrees(cache.memo, lookup) ==> desired == DesiredOf(lib, pods[..i], lookup)
    {
      ghost var memo, fetched := cache.memo, cache.fetched;
      assert pods[..i + 1][..i] == pods[..i];
      var ms := EvaluatePod(lib, pods[i], cache);
      StillReferred(lib, pods, i, fetched, cache.fetched);
      forall lookup: Lookup | Agrees(cache.memo, lookup)
        ensures desired == DesiredOf(lib, pods[..i], lookup) && ms == DesiredForPod(lib, pods[i], lookup)
      {
        AgreesEarlier(memo, cache.memo, lookup);
      }
      if ms == None {
        continue;
      }
      desired := desired + ms.value;
    }
    assert pods[..|pods|] == pods;
    seen := Remembering(cache.memo, nads);
    RememberedMemoized(nads, cache.memo, cache.fetched);
    if Apart(lib, pods) {
      forall ns, name | Refers(lib, pods, ns, name) ensures seen(ns, name) == nads(ns, name) {
        RememberedApart(lib, pods, nads, cache.memo, cache.fetched, ns, name);
      }
      DesiredSame(lib, seen, nads, pods);
    }
  }

  lemma StillReferred(lib: Library, pods: seq<Pod>, i: nat, sent: seq<(string, string)>, sent': seq<(string, string)>)
    requires i < |pods| && ReadOnly(sent, sent', RefsOf(lib, pods[i])) && forall r :: r in sent ==> Refers(lib, pods, r.0, r.1)
    ensures forall r :: r in sent' ==> Refers(lib, pods, r.0, r.1)
  {
    hide RefsOf;
  }

  lemma RememberedMemoized(nads: Lookup, memo: map<string, Option<string>>, sent: seq<(string, string)>)
    requires Recalls(nads, memo, sent)
    ensures Memoized(nads, Remembering(memo, nads))
  {
    hide Key, Agrees;
    var lookup := Remembering(memo, nads);
    forall ns, name ensures SaidFor(nads, ns, name, lookup(ns, name)) {
      if Key(ns, name) in memo {
        var i :| 0 <= i < |sent| && Key(sent[i].0, sent[i].1) == Key(ns, name) && memo[Key(ns, name)] == nads(sent[i].0, sent[i].1);
        assert lookup(ns, name) == nads(sent[i].0, sent[i].1);
      } else {
        assert lookup(ns, name) == nads(ns, name);
      }
    }
  }

  lemma RememberedApart(lib: Library, pods: seq<Pod>, nads: Lookup, memo: map<string, Option<string>>, sent: seq<(string, string)>,
                        ns: string, name: string)
    requires Recalls(nads, memo, sent) && Apart(lib, pods) && Refers(lib, pods, ns, name)
    requires forall r :: r in sent ==> Refers(lib, pods, r.0, r.1)
    ensures Remembering(memo, nads)(ns, name) == nads(ns, name)
  {
    hide Key, Agrees, Refers;
    if Key(ns, name) in memo {
      var i :| 0 <= i < |sent| && Key(sent[i].0, sent[i].1) == Key(ns, name) && memo[Key(ns, name)] == nads(sent[i].0, sent[i].1);
      assert sent[i] in sent;
    }
  }
}

/** The monitored sites and the pure part of status reconciliation: the entry
    a probe outcome produces, the notice it raises, the sweep that checks every
    site in registry order, removal by id, and the dashboard counts. */
module Sites {

  datatype Status = Pending | Up | Down

  /** One monitored target. The id comes from the clock when the site is
      added, so nothing here assumes that ids are distinct. */
  datatype Site = Site(id: int, url: string, status: Status, latency: nat)

  /** What one reachability probe reported: whether the request completed
      and how many milliseconds it took. */
  datatype Probe = Probe(reachable: bool, latency: nat)

  /** The notice a check raises: a success toast when a site comes back up,
      an alert when a site goes down, or nothing. */
  datatype Notice = Silent | BackUp(url: string) | Alert(url: string)

  /** How a status changed between two consecutive checks of one site. */
  datatype Transition = FirstResult | Recovered | Degraded | Unchanged

  /** A site that is not up has latency 0. */
  predicate LatencyConsistent(s: seq<Site>) {
    forall k :: 0 <= k < |s| ==> s[k].status != Up ==> s[k].latency == 0
  }

  predicate UrlsDistinct(s: seq<Site>) {
    forall a, b :: 0 <= a < b < |s| ==> s[a].url != s[b].url
  }

  predicate IdsDistinct(s: seq<Site>) {
    forall a, b :: 0 <= a < b < |s| ==> s[a].id != s[b].id
  }

  predicate HasUrl(s: seq<Site>, url: string) {
    exists k :: 0 <= k < |s| && s[k].url == url
  }

  /** `findIndex`: the position of the first site with the id, or -1. */
  function FindIndex(s: seq<Site>, id: int): (r: int)
    ensures -1 <= r < |s|
    ensures r == -1 <==> forall k :: 0 <= k < |s| ==> s[k].id != id
    ensures 0 <= r ==> s[r].id == id && forall k :: 0 <= k < r ==> s[k].id != id
  {
    if s == [] then -1
    else if s[0].id == id then 0
    else
      var i := FindIndex(s[1..], id);
      if i == -1 then -1 else i + 1
  }

  /** The entry after a probe: up with the measured latency when the request
      completed, down with latency 0 when it failed. */
  function Probed(site: Site, p: Probe): (r: Site)
    ensures r.id == site.id && r.url == site.url
    ensures r.status != Pending
    ensures r.status == Up <==> p.reachable
    ensures p.reachable ==> r.latency == p.latency
    ensures r.status != Up ==> r.latency == 0
  {
    if p.reachable then site.(status := Up, latency := p.latency)
    else site.(status := Down, latency := 0)
  }

  /** The notice a probe raises, decided on the status before the probe. */
  function NoticeFor(site: Site, p: Probe): (r: Notice)
    ensures r.BackUp? <==> site.status == Down && p.reachable
    ensures r.Alert? <==> site.status == Up && !p.reachable
    ensures r != Silent ==> r.url == site.url
  {
    if p.reachable then (if site.status == Down then BackUp(site.url) else Silent)
    else (if site.status == Up then Alert(site.url) else Silent)
  }

  /** Classification of a status change; `after` is the result of a probe. */
  function Classify(before: Status, after: Status): (t: Transition)
    requires after != Pending
    ensures t == Unchanged <==> before == after
    ensures t == FirstResult <==> before == Pending
  {
    if before == Pending then FirstResult
    else if before == after then Unchanged
    else if after == Up then Recovered
    else Degraded
  }

  /** A notice is raised exactly on a recovery or a degradation, never on a
      first result nor on an unchanged status. */
  lemma NoticeFollowsTransition(site: Site, p: Probe)
    ensures var t := Classify(site.status, Probed(site, p).status);
            (NoticeFor(site, p).BackUp? <==> t == Recovered)
            && (NoticeFor(site, p).Alert? <==> t == Degraded)
            && (NoticeFor(site, p) == Silent <==> t == FirstResult || t == Unchanged)
  {
  }

  /** One check of the site with the given id: the first site with that id
      takes the probe outcome and the notice is decided on its old status;
      an absent id changes nothing. */
  function Step(s: seq<Site>, id: int, p: Probe): (r: (seq<Site>, Notice))
    ensures |r.0| == |s|
    ensures forall k :: 0 <= k < |s| ==> r.0[k].id == s[k].id && r.0[k].url == s[k].url
  {
    var i := FindIndex(s, id);
    if i == -1 then (s, Silent)
    else (s[i := Probed(s[i], p)], NoticeFor(s[i], p))
  }

  /** What one check does: an absent id changes nothing and raises nothing;
      otherwise only the first site with the id changes, and it takes the
      probe outcome and raises the notice decided on its old status. */
  lemma StepSpec(s: seq<Site>, id: int, p: Probe)
    ensures (forall k :: 0 <= k < |s| ==> s[k].id != id) ==> Step(s, id, p) == (s, Silent)
    ensures forall k :: 0 <= k < |s| && s[k].id == id && (forall j :: 0 <= j < k ==> s[j].id != id) ==>
              Step(s, id, p) == (s[k := Probed(s[k], p)], NoticeFor(s[k], p))
  {
    forall k | 0 <= k < |s| && s[k].id == id && (forall j :: 0 <= j < k ==> s[j].id != id)
      ensures Step(s, id, p) == (s[k := Probed(s[k], p)], NoticeFor(s[k], p))
    {
      assert FindIndex(s, id) == k;
    }
  }

  /** A check keeps "a site that is not up has latency 0". */
  lemma StepKeepsLatencyConsistent(s: seq<Site>, id: int, p: Probe)
    requires LatencyConsistent(s)
    ensures LatencyConsistent(Step(s, id, p).0)
  {
  }

  function IdsOf(s: seq<Site>): seq<int> {
    seq(|s|, k requires 0 <= k < |s| => s[k].id)
  }

  /** A sequential pass: check `ids[0]` with `probes[0]`, then `ids[1]` with
      `probes[1]`, and so on, collecting the notices in order. */
  function Sweep(s: seq<Site>, ids: seq<int>, probes: seq<Probe>): (r: (seq<Site>, seq<Notice>))
    requires |ids| == |probes|
    ensures |r.0| == |s| && |r.1| == |ids|
    ensures forall k :: 0 <= k < |s| ==> r.0[k].id == s[k].id && r.0[k].url == s[k].url
    decreases |ids|
  {
    if ids == [] then (s, [])
    else
      var n := |ids| - 1;
      var before := Sweep(s, ids[..n], probes[..n]);
      var after := Step(before.0, ids[n], probes[n]);
      (after.0, before.1 + [after.1])
  }

  /** Sweeping one more site is one more check after the shorter sweep. */
  lemma SweepSnoc(s: seq<Site>, ids: seq<int>, probes: seq<Probe>, i: nat)
    requires |ids| == |probes| && i < |ids|
    ensures var before := Sweep(s, ids[..i], probes[..i]);
            var after := Step(before.0, ids[i], probes[i]);
            Sweep(s, ids[..i + 1], probes[..i + 1]) == (after.0, before.1 + [after.1])
  {
    assert ids[..i + 1][..i] == ids[..i];
    assert probes[..i + 1][..i] == probes[..i];
  }

  /** A sweep keeps "a site that is not up has latency 0". */
  lemma {:induction false} SweepKeepsLatencyConsistent(s: seq<Site>, ids: seq<int>, probes: seq<Probe>)
    requires |ids| == |probes|
    requires LatencyConsistent(s)
    ensures LatencyConsistent(Sweep(s, ids, probes).0)
    decreases |ids|
  {
    if ids != [] {
      var n := |ids| - 1;
      SweepKeepsLatencyConsistent(s, ids[..n], probes[..n]);
      StepKeepsLatencyConsistent(Sweep(s, ids[..n], probes[..n]).0, ids[n], probes[n]);
    }
  }

  /** The sweep over the first `i` sites, when ids are distinct: each of those
      sites took its own probe and raised its own notice, the rest are as they were. */
  lemma {:induction false} SweepPrefix(s: seq<Site>, probes: seq<Probe>, i: nat)
    requires IdsDistinct(s) && |probes| == |s| && i <= |s|
    ensures var r := Sweep(s, IdsOf(s)[..i], probes[..i]);
            && |r.0| == |s| && |r.1| == i
            && (forall k :: 0 <= k < i ==> r.0[k] == Probed(s[k], probes[k]) && r.1[k] == NoticeFor(s[k], probes[k]))
            && (forall k :: i <= k < |s| ==> r.0[k] == s[k])
  {
    var ids := IdsOf(s);
    if i == 0 {
      assert ids[..0] == [] && probes[..0] == [];
    } else {
      SweepPrefix(s, probes, i - 1);
      SweepSnoc(s, ids, probes, i - 1);
      var before := Sweep(s, ids[..i - 1], probes[..i - 1]);
      var t := before.0;
      assert t[i - 1] == s[i - 1];
      assert FindIndex(t, ids[i - 1]) == i - 1 by {
        var j := FindIndex(t, ids[i - 1]);
        assert t[j].id == s[j].id;
      }
      var after := Step(t, ids[i - 1], probes[i - 1]);
      assert after.0 == t[i - 1 := Probed(s[i - 1], probes[i - 1])];
      assert after.1 == NoticeFor(s[i - 1], probes[i - 1]);
      var notices := before.1 + [after.1];
      forall k | 0 <= k < i
        ensures after.0[k] == Probed(s[k], probes[k]) && notices[k] == NoticeFor(s[k], probes[k])
      {
        if k < i - 1 {
          assert notices[k] == before.1[k];
        }
      }
    }
  }

  /** A full sweep over a registry with distinct ids probes every site exactly
      once, in order: site k takes probe k and raises the notice of probe k. */
  lemma SweepDistinct(s: seq<Site>, probes: seq<Probe>)
    requires IdsDistinct(s) && |probes| == |s|
    ensures var r := Sweep(s, IdsOf(s), probes);
            && |r.0| == |s| && |r.1| == |s|
            && forall k :: 0 <= k < |s| ==> r.0[k] == Probed(s[k], probes[k]) && r.1[k] == NoticeFor(s[k], probes[k])
  {
    SweepPrefix(s, probes, |s|);
    assert IdsOf(s)[..|s|] == IdsOf(s);
    assert probes[..|s|] == probes;
  }

  /** What a full sweep keeps and, over distinct ids, what it produces. */
  lemma FullSweep(s: seq<Site>, probes: seq<Probe>)
    requires |probes| == |s|
    ensures var r := Sweep(s, IdsOf(s), probes);
            && (LatencyConsistent(s) ==> LatencyConsistent(r.0))
            && (UrlsDistinct(s) ==> UrlsDistinct(r.0))
            && (IdsDistinct(s) ==> forall k :: 0 <= k < |r.0| ==>
                  r.0[k] == Probed(s[k], probes[k]) && r.1[k] == NoticeFor(s[k], probes[k]))
  {
    if LatencyConsistent(s) {
      SweepKeepsLatencyConsistent(s, IdsOf(s), probes);
    }
    if IdsDistinct(s) {
      SweepDistinct(s, probes);
    }
  }

  /** After a full sweep over distinct ids nothing is pending, so the online
      and offline counts add up to the total, and the online count is the
      number of probes that succeeded. */
  lemma SweepDistinctCounts(s: seq<Site>, probes: seq<Probe>)
    requires IdsDistinct(s) && |probes| == |s|
    ensures var r := Sweep(s, IdsOf(s), probes).0;
            && CountStatus(r, Pending) == 0
            && LatencyConsistent(r)
            && CountStatus(r, Up) == CountReachable(probes)
            && CountStatus(r, Down) == |probes| - CountReachable(probes)
  {
    SweepDistinct(s, probes);
    var r := Sweep(s, IdsOf(s), probes).0;
    ProbedCounts(r, s, probes);
    CountsPartition(r);
  }

  lemma {:induction false} ProbedCounts(r: seq<Site>, s: seq<Site>, probes: seq<Probe>)
    requires |r| == |s| == |probes|
    requires forall k :: 0 <= k < |s| ==> r[k] == Probed(s[k], probes[k])
    ensures CountStatus(r, Up) == CountReachable(probes)
    ensures CountStatus(r, Pending) == 0
  {
    if r != [] {
      ProbedCounts(r[1..], s[1..], probes[1..]);
    }
  }

  /** When two sites share an id, no check ever reaches the later one: every
      check by that id stops at an earlier site, so a sweep leaves the later
      site exactly as it was. */
  lemma {:induction false} SweepShadowed(s: seq<Site>, ids: seq<int>, probes: seq<Probe>, j: nat, k: nat)
    requires |ids| == |probes| && j < k < |s| && s[j].id == s[k].id
    ensures Sweep(s, ids, probes).0[k] == s[k]
    decreases |ids|
  {
    if ids != [] {
      var n := |ids| - 1;
      SweepShadowed(s, ids[..n], probes[..n], j, k);
      var t := Sweep(s, ids[..n], probes[..n]).0;
      assert FindIndex(t, ids[n]) != k by {
        assert t[j].id == s[j].id && t[k].id == s[k].id;
      }
    }
  }

  /** An instance of `SweepShadowed`: with two pending sites sharing an id, a
      sweep checks the first of them once per copy and the second stays
      pending. */
  lemma DuplicateIdShadowed()
    ensures var s := [Site(7, "https://a.test", Pending, 0), Site(7, "https://b.test", Pending, 0)];
            var r := Sweep(s, IdsOf(s), [Probe(true, 30), Probe(true, 40)]).0;
            r[0] == Site(7, "https://a.test", Up, 40) && r[1] == s[1]
  {
    var s := [Site(7, "https://a.test", Pending, 0), Site(7, "https://b.test", Pending, 0)];
    var ps := [Probe(true, 30), Probe(true, 40)];
    assert IdsOf(s) == [7, 7];
    assert [7, 7][..1] == [7] && ps[..1] == [Probe(true, 30)];
    assert [7][..0] == [] && [Probe(true, 30)][..0] == [];
    var first := Sweep(s, [7], [Probe(true, 30)]);
    assert first.0 == [Site(7, "https://a.test", Up, 30), s[1]];
  }

  /** `filter(site => site.id !== id)`: the sites whose id differs, in order. */
  function WithoutId(s: seq<Site>, id: int): (r: seq<Site>)
    ensures |r| <= |s|
    ensures forall x :: x in r <==> x in s && x.id != id
    ensures (forall k :: 0 <= k < |s| ==> s[k].id != id) ==> r == s
  {
    if s == [] then []
    else if s[0].id == id then WithoutId(s[1..], id)
    else [s[0]] + WithoutId(s[1..], id)
  }

  /** Filtering distributes over concatenation; with the single-site cases
      this pins the result down: the kept sites stay in their original
      relative order. */
  lemma {:induction false} WithoutIdAppend(a: seq<Site>, b: seq<Site>, id: int)
    ensures WithoutId(a + b, id) == WithoutId(a, id) + WithoutId(b, id)
  {
    if a == [] {
      assert a + b == b;
    } else {
      assert (a + b)[1..] == a[1..] + b;
      WithoutIdAppend(a[1..], b, id);
    }
  }

  lemma WithoutIdSingle(x: Site, id: int)
    ensures WithoutId([x], id) == if x.id == id then [] else [x]
  {
  }

  /** Removal keeps the invariants: latency 0 unless up, and distinct URLs. */
  lemma {:induction false} WithoutIdKeepsInvariants(s: seq<Site>, id: int)
    ensures LatencyConsistent(s) ==> LatencyConsistent(WithoutId(s, id))
    ensures UrlsDistinct(s) ==> UrlsDistinct(WithoutId(s, id))
  {
    if s != [] {
      WithoutIdKeepsInvariants(s[1..], id);
      var t := WithoutId(s[1..], id);
      if UrlsDistinct(s) && s[0].id != id {
        forall b | 0 < b < |t| + 1 ensures ([s[0]] + t)[0].url != ([s[0]] + t)[b].url {
          assert t[b - 1] in s[1..];
        }
      }
    }
  }

  /** `filter(w => w.status === st).length`. */
  function CountStatus(s: seq<Site>, st: Status): (r: nat)
    ensures r <= |s|
    ensures r == 0 <==> forall k :: 0 <= k < |s| ==> s[k].status != st
    ensures r == |s| <==> forall k :: 0 <= k < |s| ==> s[k].status == st
  {
    if s == [] then 0
    else (if s[0].status == st then 1 else 0) + CountStatus(s[1..], st)
  }

  function CountReachable(probes: seq<Probe>): (r: nat)
    ensures r <= |probes|
  {
    if probes == [] then 0
    else (if probes[0].reachable then 1 else 0) + CountReachable(probes[1..])
  }

  /** Every site is pending, up or down. */
  lemma {:induction false} CountsPartition(s: seq<Site>)
    ensures CountStatus(s, Pending) + CountStatus(s, Up) + CountStatus(s, Down) == |s|
  {
    if s != [] {
      CountsPartition(s[1..]);
    }
  }

  /** The three figures at the top of the dashboard. */
  datatype Stats = Stats(total: nat, online: nat, offline: nat)

  function Dashboard(s: seq<Site>): (r: Stats)
    ensures r.total == |s|
    ensures r.online + r.offline <= r.total
    ensures r.online + r.offline == r.total <==> forall k :: 0 <= k < |s| ==> s[k].status != Pending
    ensures r.online == r.total <==> forall k :: 0 <= k < |s| ==> s[k].status == Up
  {
    CountsPartition(s);
    Stats(|s|, CountStatus(s, Up), CountStatus(s, Down))
  }
}

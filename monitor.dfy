/** The page's site registry: the `websites` list and the operations that
    change it in place. Probe outcomes and new ids are supplied by the caller,
    standing for the network request and the clock. */
module Monitor {
  import opened Url
  import opened Sites

  /** Why an add was refused. */
  datatype AddError = EmptyUrl | DuplicateUrl

  datatype AddResult = Added(site: Site) | Rejected(error: AddError)

  class Registry {
    /** The monitored sites, in insertion order. */
    var sites: seq<Site>

    /** The registry as loaded at start-up (an empty list when nothing was stored). */
    constructor (stored: seq<Site>)
      ensures sites == stored
    {
      sites := stored;
    }

    /** `addWebsite`: trim the input, refuse it when blank, prefix `https://`
        unless it starts with `http`, refuse a URL already present, and
        otherwise append a pending site with latency 0. */
    method Add(input: string, id: int) returns (r: AddResult)
      modifies this
      ensures IsBlank(input) ==> r == Rejected(EmptyUrl) && sites == old(sites)
      ensures !IsBlank(input) && HasUrl(old(sites), Normalize(Trim(input))) ==>
                r == Rejected(DuplicateUrl) && sites == old(sites)
      ensures !IsBlank(input) && !HasUrl(old(sites), Normalize(Trim(input))) ==>
                r == Added(Site(id, Normalize(Trim(input)), Pending, 0)) && sites == old(sites) + [r.site]
      ensures LatencyConsistent(old(sites)) ==> LatencyConsistent(sites)
      ensures UrlsDistinct(old(sites)) ==> UrlsDistinct(sites)
      ensures IdsDistinct(old(sites)) && (forall k :: 0 <= k < |old(sites)| ==> old(sites)[k].id != id) ==>
                IdsDistinct(sites)
    {
      if IsBlank(input) {
        return Rejected(EmptyUrl);
      }
      var url := Trim(input);
      if !HasPrefix(url, "http") {
        url := "https://" + url;
      }
      if HasUrl(sites, url) {
        return Rejected(DuplicateUrl);
      }
      var site := Site(id, url, Pending, 0);
      sites := sites + [site];
      r := Added(site);
    }

    /** `removeWebsite`: keep the sites whose id differs, in order. */
    method Remove(id: int)
      modifies this
      ensures sites == WithoutId(old(sites), id)
      ensures LatencyConsistent(old(sites)) ==> LatencyConsistent(sites)
      ensures UrlsDistinct(old(sites)) ==> UrlsDistinct(sites)
    {
      WithoutIdKeepsInvariants(sites, id);
      sites := WithoutId(sites, id);
    }

    /** `checkSingleWebsite`, as one atomic step once the probe has settled:
        the first site with the id takes the probe outcome and the notice is
        decided on its status before the update. */
    method Check(id: int, probe: Probe) returns (notice: Notice)
      modifies this
      ensures (sites, notice) == Step(old(sites), id, probe)
      ensures LatencyConsistent(old(sites)) ==> LatencyConsistent(sites)
      ensures UrlsDistinct(old(sites)) ==> UrlsDistinct(sites)
    {
      var index := FindIndex(sites, id);
      if index == -1 {
        return Silent;
      }
      var before := sites[index];
      sites := sites[index := Probed(before, probe)];
      notice := NoticeFor(before, probe);
    }

    /** `checkAllWebsites`: check every site in list order, the k-th check
        taking the k-th probe outcome. */
    method CheckAll(probes: seq<Probe>) returns (notices: seq<Notice>)
      requires |probes| == |sites|
      modifies this
      ensures (sites, notices) == Sweep(old(sites), IdsOf(old(sites)), probes)
      ensures LatencyConsistent(old(sites)) ==> LatencyConsistent(sites)
      ensures UrlsDistinct(old(sites)) ==> UrlsDistinct(sites)
      ensures IdsDistinct(old(sites)) ==> forall k :: 0 <= k < |sites| ==>
                sites[k] == Probed(old(sites)[k], probes[k]) && notices[k] == NoticeFor(old(sites)[k], probes[k])
    {
      ghost var start := sites;
      var i := 0;
      notices := [];
      ghost var ids := IdsOf(start);
      while i < |sites|
        invariant |sites| == |start| && 0 <= i <= |start|
        invariant (sites, notices) == Sweep(start, ids[..i], probes[..i])
      {
        SweepSnoc(start, ids, probes, i);
        var notice := Check(sites[i].id, probes[i]);
        notices := notices + [notice];
        i := i + 1;
      }
      assert ids[..i] == ids;
      assert probes[..i] == probes;
      FullSweep(start, probes);
    }
  }

  /** A trimmed URL that starts with `http` added to an empty registry, then
      a first probe that fails: the site is down with latency 0 and, its old
      status being pending, no alert is raised. */
  method FirstProbeScenario(url: string)
    requires url != [] && Trim(url) == url && HasPrefix(url, "http")
  {
    assert !IsBlank(url) && Normalize(Trim(url)) == url;
    var registry := new Registry([]);
    var added := registry.Add(url, 1);
    assert added == Added(Site(1, url, Pending, 0));
    var first := registry.Check(1, Probe(false, 12));
    assert first == Silent && registry.sites == [Site(1, url, Down, 0)];
  }

  /** The next pass over that registry succeeds: the site is up with the
      measured latency and one success notice is raised; adding the same URL
      again is refused. */
  method RecoveryScenario(url: string)
    requires url != [] && Trim(url) == url && HasPrefix(url, "http")
  {
    var registry := new Registry([Site(1, url, Down, 0)]);
    var notices := registry.CheckAll([Probe(true, 85)]);
    assert notices == [BackUp(url)];
    assert registry.sites == [Site(1, url, Up, 85)];
    var again := registry.Add(url, 2);
    assert again == Rejected(DuplicateUrl) && |registry.sites| == 1;
  }
}

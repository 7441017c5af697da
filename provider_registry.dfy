/**
 * The provider registry: every provider is registered under each domain it
 * claims, and a URL is dispatched on its host name without a leading `www.`.
 */
module ProviderRegistry {
  import opened Wrappers
  import opened Strings
  import opened Records
  import opened ProviderBase

  /** The host name with one leading `www.` removed. */
  function ExtractDomain(url: Url): (domain: string)
    ensures domain == url.hostname || "www." + domain == url.hostname
    ensures domain == url.hostname <==> !StartsWith(url.hostname, "www.")
  {
    if StartsWith(url.hostname, "www.") then url.hostname[4..] else url.hostname
  }

  /** Only one `www.` goes: `www.www.x` becomes `www.x`. */
  lemma ExtractDomainStripsOnce(protocol: string, domain: string, path: string)
    ensures ExtractDomain(Url(protocol, "www." + domain, path)) == domain
  {
    assert ("www." + domain)[..4] == "www.";
  }

  /** The pairs one registration assigns: each claimed domain to the provider. */
  function Claims(p: Provider): seq<(string, Provider)> {
    seq(|p.supportedDomains|, i requires 0 <= i < |p.supportedDomains| => (p.supportedDomains[i], p))
  }

  lemma ClaimsKeys(p: Provider)
    ensures KeysOf(Claims(p)) == set d | d in p.supportedDomains
  {
    var cs := Claims(p);
    forall d | d in p.supportedDomains ensures d in KeysOf(cs) {
      var i :| 0 <= i < |p.supportedDomains| && p.supportedDomains[i] == d;
      assert cs[i].0 == d;
    }
  }

  /** The dispatch map after registering `ps` in order, starting from `m`. */
  function Registered(m: map<string, Provider>, ps: seq<Provider>): map<string, Provider>
    decreases |ps|
  {
    if |ps| == 0 then m
    else Assign(Registered(m, ps[..|ps| - 1]), Claims(ps[|ps| - 1]))
  }

  /** A domain belongs to the last provider in the registration sequence that claims it. */
  lemma {:induction false} LaterRegistrationWins(m: map<string, Provider>, ps: seq<Provider>, i: nat, d: string)
    requires i < |ps| && d in ps[i].supportedDomains
    requires forall j :: i < j < |ps| ==> d !in ps[j].supportedDomains
    ensures d in Registered(m, ps) && Registered(m, ps)[d] == ps[i]
    decreases |ps|
  {
    var init, last := ps[..|ps| - 1], ps[|ps| - 1];
    if i == |ps| - 1 {
      ClaimsKeys(last);
      AssignConstant(Registered(m, init), Claims(last), last, d);
    } else {
      assert init[i] == ps[i];
      assert forall j :: i < j < |init| ==> init[j] == ps[j];
      LaterRegistrationWins(m, init, i, d);
      assert forall k :: 0 <= k < |Claims(last)| ==> Claims(last)[k].0 != d;
      AssignOther(Registered(m, init), Claims(last), d);
    }
  }

  /** A domain that no provider claims keeps what it had. */
  lemma {:induction false} UnclaimedDomainUnchanged(m: map<string, Provider>, ps: seq<Provider>, d: string)
    requires forall j :: 0 <= j < |ps| ==> d !in ps[j].supportedDomains
    ensures d in Registered(m, ps) <==> d in m
    ensures d in m ==> Registered(m, ps)[d] == m[d]
    decreases |ps|
  {
    if |ps| > 0 {
      var init, last := ps[..|ps| - 1], ps[|ps| - 1];
      assert forall j :: 0 <= j < |init| ==> init[j] == ps[j];
      UnclaimedDomainUnchanged(m, init, d);
      assert forall k :: 0 <= k < |Claims(last)| ==> Claims(last)[k].0 != d;
      AssignOther(Registered(m, init), Claims(last), d);
    }
  }

  /** The providers of the suite, in the order they are registered. */
  datatype ProviderKind =
    | AllMusic | Amazon | AmazonMusic | AppleMusic | Archive | Audiomack | Bandcamp | Beatport
    | Booth | Bugs | CoverArtArchive | DatPiff | Deezer | Discogs | Jamendo | JunoDownload
    | Melon | Monstercat | MusicBrainz | MusikSammler | NetEase | Qobuz | RateYourMusic | Rockipedia
    | SevenDigital | Soundcloud | Spotify | Tidal | Traxsource | VGMdb | VKMusic | YandexMusic

  const RegistrationOrder: seq<ProviderKind> := [
    AllMusic, Amazon, AmazonMusic, AppleMusic, Archive, Audiomack, Bandcamp, Beatport,
    Booth, Bugs, CoverArtArchive, DatPiff, Deezer, Discogs, Jamendo, JunoDownload,
    Melon, Monstercat, MusicBrainz, MusikSammler, NetEase, Qobuz, RateYourMusic, Rockipedia,
    SevenDigital, Soundcloud, Spotify, Tidal, Traxsource, VGMdb, VKMusic, YandexMusic ]

  function Instances(instance: ProviderKind -> Provider): seq<Provider> {
    seq(|RegistrationOrder|, i requires 0 <= i < |RegistrationOrder| => instance(RegistrationOrder[i]))
  }

  /** The hostname-to-provider table. */
  class ProviderDispatch {
    var dispatch: map<string, Provider>

    constructor ()
      ensures dispatch == map[]
    {
      dispatch := map[];
    }

    /** Registers `provider` under each of its domains, one `set` at a time. */
    method AddProvider(provider: Provider)
      modifies this
      ensures dispatch == Assign(old(dispatch), Claims(provider))
      ensures forall d :: d in provider.supportedDomains ==> d in dispatch && dispatch[d] == provider
      ensures forall d :: d !in provider.supportedDomains ==>
        (d in dispatch <==> d in old(dispatch)) && (d in old(dispatch) ==> dispatch[d] == old(dispatch)[d])
    {
      var domains := provider.supportedDomains;
      var claims := Claims(provider);
      var i := 0;
      while i < |domains|
        invariant 0 <= i <= |domains|
        invariant dispatch == Assign(old(dispatch), claims[..i])
      {
        assert claims[..i + 1] == claims[..i] + [(domains[i], provider)];
        AssignSnoc(old(dispatch), claims[..i], (domains[i], provider));
        dispatch := dispatch[domains[i] := provider];
        i := i + 1;
      }
      assert claims[..i] == claims;
      ClaimsKeys(provider);
      forall d | d in domains ensures d in dispatch && dispatch[d] == provider {
        AssignConstant(old(dispatch), claims, provider, d);
      }
      forall d | d !in domains
        ensures (d in dispatch <==> d in old(dispatch)) && (d in old(dispatch) ==> dispatch[d] == old(dispatch)[d])
      {
        AssignOther(old(dispatch), claims, d);
      }
    }

    /** Registers each provider of `providers`, in order. */
    method AddProviders(providers: seq<Provider>)
      modifies this
      ensures dispatch == Registered(old(dispatch), providers)
    {
      var i := 0;
      while i < |providers|
        invariant 0 <= i <= |providers|
        invariant dispatch == Registered(old(dispatch), providers[..i])
      {
        assert providers[..i + 1][..i] == providers[..i];
        AddProvider(providers[i]);
        i := i + 1;
      }
      assert providers[..i] == providers;
    }

    /** The provider registered for the URL's domain, without looking at the rest of the URL. */
    function GetProviderByDomain(url: Url): (r: Option<Provider>)
      reads this
      ensures r.Some? <==> ExtractDomain(url) in dispatch
      ensures r.Some? ==> r.value == dispatch[ExtractDomain(url)]
    {
      var domain := ExtractDomain(url);
      if domain in dispatch then Some(dispatch[domain]) else None
    }

    /** The provider for the URL's domain, provided that it also recognises the URL. */
    function GetProvider(url: Url): (r: Option<Provider>)
      reads this
      ensures r.Some? <==> GetProviderByDomain(url).Some? && GetProviderByDomain(url).value.supportsUrl(url)
      ensures r.None? || r == GetProviderByDomain(url)
    {
      match GetProviderByDomain(url)
      case None => None
      case Some(provider) => if provider.supportsUrl(url) then Some(provider) else None
    }
  }

  /** The registry of the suite: the 32 providers registered in their fixed order. */
  method BuildProviderDispatch(instance: ProviderKind -> Provider) returns (registry: ProviderDispatch)
    ensures fresh(registry)
    ensures registry.dispatch == Registered(map[], Instances(instance))
  {
    registry := new ProviderDispatch();
    registry.AddProviders(Instances(instance));
  }

  /** Host names that differ by a leading `www.` dispatch alike, and the path plays no part. */
  lemma WwwAliasSameProvider(registry: ProviderDispatch, hostname: string, a: Url, b: Url)
    requires !StartsWith(hostname, "www.")
    requires a.hostname == hostname && b.hostname == "www." + hostname
    ensures registry.GetProviderByDomain(a) == registry.GetProviderByDomain(b)
    ensures registry.GetProviderByDomain(a) == registry.GetProviderByDomain(Url(a.protocol, hostname, b.path))
  {
    ExtractDomainStripsOnce(b.protocol, hostname, b.path);
  }

  /** An unregistered domain has no provider, by either lookup. */
  lemma UnregisteredDomain(registry: ProviderDispatch, url: Url)
    requires ExtractDomain(url) !in registry.dispatch
    ensures registry.GetProviderByDomain(url) == None && registry.GetProvider(url) == None
  {
  }
}

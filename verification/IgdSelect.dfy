/** Choosing an Internet gateway device: UPNP_GetValidIGD and the URL sets it allocates and frees. */
module IgdSelect {
  import opened Text
  import opened XmlTree
  import opened IgdDesc

  // ----- private addresses

  /** is_rfc1918addr */
  predicate IsRfc1918(addr: string) {
    || "192.168." <= addr
    || "10." <= addr
    || ("172." <= addr && 16 <= Atoi(addr[4..]) <= 31)
  }

  function Dotted(a: nat, b: nat, c: nat, d: nat): string {
    Decimal(a) + ("." + (Decimal(b) + ("." + (Decimal(c) + ("." + Decimal(d))))))
  }

  predicate AllDigits(s: string) {
    forall k | 0 <= k < |s| :: IsDigit(s[k])
  }

  // A number in front of a dot is read off unambiguously.
  lemma FirstNumber(s: string, t: string, x: string)
    requires AllDigits(s) && AllDigits(t)
    ensures t + "." <= s + ("." + x) <==> s == t
  {
    var l, r := t + ".", s + ("." + x);
    assert l[|t|] == '.' && r[|s|] == '.';
    if s == t {
      assert r == l + x;
    } else if |t| < |s| {
      assert r[|t|] == s[|t|];
    } else if |s| < |t| {
      assert l[|s|] == t[|s|];
    } else {
      assert t == l[..|t|] && s == r[..|t|];
    }
  }

  // And so are two of them.
  lemma FirstTwoNumbers(s: string, t: string, v: string, u: string, x: string)
    requires AllDigits(s) && AllDigits(t) && AllDigits(v) && AllDigits(u)
    ensures (t + ".") + (u + ".") <= s + ("." + (v + ("." + x))) <==> s == t && v == u
  {
    var y := v + ("." + x);
    FirstNumber(s, t, y);
    FirstNumber(v, u, x);
    var l, r := (t + ".") + (u + "."), s + ("." + y);
    if s == t {
      assert r == (t + ".") + y;
      Cancel(t + ".", u + ".", y);
    }
  }

  lemma Cancel(a: string, b: string, c: string)
    ensures a + b <= a + c <==> b <= c
  {
    if a + b <= a + c {
      assert (a + c)[..|a + b|] == a + b;
      assert c[..|b|] == (a + c)[|a|..|a + b|] == (a + b)[|a|..] == b;
    }
  }

  lemma DecimalIs(n: nat, t: string, m: nat)
    requires AllDigits(t) && Decimal(m) == t
    ensures Decimal(n) == t <==> n == m
  {
    NumberOfDecimal(n);
    NumberOfDecimal(m);
  }

  lemma Decimals()
    ensures Decimal(10) == "10" && Decimal(172) == "172" && Decimal(192) == "192" && Decimal(168) == "168"
  {
    assert Decimal(1) == "1" && Decimal(17) == "17" && Decimal(19) == "19" && Decimal(16) == "16";
  }

  lemma Starts(a: nat, x: string, t: string, m: nat)
    requires AllDigits(t) && Decimal(m) == t
    ensures t + "." <= Decimal(a) + ("." + x) <==> a == m
  {
    FirstNumber(Decimal(a), t, x);
    DecimalIs(a, t, m);
  }

  lemma Block192(a: nat, b: nat, x: string)
    ensures "192.168." <= Decimal(a) + ("." + (Decimal(b) + ("." + x))) <==> a == 192 && b == 168
  {
    Decimals();
    FirstTwoNumbers(Decimal(a), "192", Decimal(b), "168", x);
    DecimalIs(a, "192", 192);
    DecimalIs(b, "168", 168);
    assert "192.168." == ("192" + ".") + ("168" + ".");
  }

  lemma Block172(a: nat, b: nat, x: string)
    ensures "172." <= Decimal(a) + ("." + (Decimal(b) + ("." + x))) <==> a == 172
    ensures a == 172 ==> (Decimal(a) + ("." + (Decimal(b) + ("." + x))))[4..] == Decimal(b) + ("." + x)
  {
    Decimals();
    Starts(a, Decimal(b) + ("." + x), "172", 172);
    assert "172." == "172" + ".";
    AfterFirst("172", Decimal(b) + ("." + x));
  }

  lemma AfterFirst(s: string, y: string)
    ensures (s + ("." + y))[|s| + 1..] == y
  {
  }

  /** On every dotted quad the textual test is membership in one of the three private blocks of section 3 of
      RFC 1918: 10/8, 172.16/12 and 192.168/16. */
  lemma PrivateBlocks(a: nat, b: nat, c: nat, d: nat)
    ensures IsRfc1918(Dotted(a, b, c, d)) <==> a == 10 || (a == 172 && 16 <= b <= 31) || (a == 192 && b == 168)
  {
    var x := Decimal(c) + ("." + Decimal(d));
    Decimals();
    Block192(a, b, x);
    Block172(a, b, x);
    AtoiOfDecimal(b, "." + x);
    Starts(a, Decimal(b) + ("." + x), "10", 10);
    assert "10." == "10" + ".";
  }

  // ----- devices and what the network answers

  /** What the network says about one service: the connection status, the result of asking for the external
      address, and the address. */
  datatype Answer = Answer(status: string, code: int, addr: string)

  /** A discovered device: its description, if it could be fetched, and the answers about its first and its
      second connection service. */
  datatype Device = Device(descUrl: string, desc: Option<string>, first: Answer, second: Answer)

  predicate Usable(a: Answer) {
    && (a.status == "Connected" || a.status == "Up")
    && a.code == 0 && !IsRfc1918(a.addr) && a.addr != "" && a.addr != "0.0.0.0"
  }

  function Described(xml: string): Data {
    HandleAll(ZERO, Parsed(xml, |xml|))
  }

  predicate Fetched(dev: Device) {
    dev.desc.Some?
  }

  predicate IsIgd(dev: Device) {
    Fetched(dev) && KindOf(Described(dev.desc.value).cif.servicetype) == CommonInterface
  }

  predicate ViaSecond(dev: Device) {
    Fetched(dev) && Described(dev.desc.value).second.servicetype != "" && Usable(dev.second)
  }

  predicate Connected(dev: Device) {
    IsIgd(dev) && (Usable(dev.first) || ViaSecond(dev))
  }

  function Swapped(d: Data): Data {
    d.(tmp := d.first, first := d.second, second := d.first)
  }

  // The data handed back for a device chosen because it is connected.
  function ConnectedData(dev: Device): Data
    requires Connected(dev)
  {
    var d := Described(dev.desc.value);
    if Usable(dev.first) then d else Swapped(d)
  }

  // ----- URL sets

  datatype Urls = Urls(rootdescUrl: string, ipcondescUrl: string, controlUrl: string, controlUrlCif: string,
                       controlUrl6fc: string)

  function IndexOfSlash(s: string, i: nat): (r: nat)
    requires i <= |s|
    ensures i <= r <= |s|
    decreases |s| - i
  {
    if i == |s| || s[i] == '/' then i else IndexOfSlash(s, i + 1)
  }

  /** build_absolute_url, for devices without an IPv6 scope */
  function AbsoluteUrl(urlbase: string, descUrl: string, url: string): (r: string) {
    if "http://" <= url then url
    else
      var base := if urlbase == "" then descUrl else urlbase;
      var n := if |base| > 7 then IndexOfSlash(base, 7) else |base|;
      base[..n] + (if url == "" || url[0] != '/' then "/" else "") + url
  }

  function UrlsOf(d: Data, descUrl: string): Urls {
    Urls(descUrl, AbsoluteUrl(d.urlbase, descUrl, d.first.scpdurl), AbsoluteUrl(d.urlbase, descUrl, d.first.controlurl),
         AbsoluteUrl(d.urlbase, descUrl, d.cif.controlurl), AbsoluteUrl(d.urlbase, descUrl, d.ipv6fc.controlurl))
  }

  // ----- what the URLs are

  // Scheme and host of a base URL end before the first '/' behind "http://", or where it ends.
  predicate HostEnds(base: string, n: nat) {
    && n <= |base| && (forall k | 7 <= k < n :: base[k] != '/')
    && (n == |base| || (n >= 7 && base[n] == '/'))
  }

  /** r is what url stands for in a description with that base: url itself when it is absolute, otherwise scheme and
      host of the base and url as a path. */
  ghost predicate Resolves(base: string, url: string, r: string) {
    if "http://" <= url then r == url
    else exists n: nat :: HostEnds(base, n) && r == base[..n] + (if "/" <= url then url else "/" + url)
  }

  lemma {:induction false} SlashFound(s: string, i: nat)
    requires i <= |s|
    ensures var n := IndexOfSlash(s, i);
            (forall k | i <= k < n :: s[k] != '/') && (n == |s| || s[n] == '/')
    decreases |s| - i
  {
    if i < |s| && s[i] != '/' { SlashFound(s, i + 1); }
  }

  lemma AbsoluteResolves(urlbase: string, descUrl: string, url: string)
    ensures Resolves(if urlbase == "" then descUrl else urlbase, url, AbsoluteUrl(urlbase, descUrl, url))
  {
    var base := if urlbase == "" then descUrl else urlbase;
    var n := if |base| > 7 then IndexOfSlash(base, 7) else |base|;
    if |base| > 7 { SlashFound(base, 7); }
    assert HostEnds(base, n);
    assert "/" <= url <==> url != "" && url[0] == '/';
    assert base[..n] + "" + url == base[..n] + url;
    assert base[..n] + "/" + url == base[..n] + ("/" + url);
  }

  lemma HostIs(host: string, path: string, n: nat)
    requires (forall k | 0 <= k < |host| :: host[k] != '/') && (path == "" || path[0] == '/')
    ensures HostEnds("http://" + (host + path), n) <==> n == 7 + |host|
  {
    var base, m := "http://" + (host + path), 7 + |host|;
    assert forall k | 7 <= k < m :: base[k] == host[k - 7];
    assert path != "" ==> base[m] == path[0];
  }

  /** Under a base "http://host/..." a URL without scheme stands for the host and a path. */
  lemma PathResolves(host: string, path: string, url: string, r: string)
    requires (forall k | 0 <= k < |host| :: host[k] != '/') && (path == "" || path[0] == '/') && !("http://" <= url)
    ensures Resolves("http://" + (host + path), url, r) <==>
            r == "http://" + (host + (if "/" <= url then url else "/" + url))
  {
    var base, m, p := "http://" + (host + path), 7 + |host|, if "/" <= url then url else "/" + url;
    HostIs(host, path, m);
    assert base[..m] == "http://" + host;
    assert base[..m] + p == "http://" + (host + p);
    forall n: nat | HostEnds(base, n)
      ensures n == m
    {
      HostIs(host, path, n);
    }
  }

  /** The URL set of a device: the address of its description, the description and the control URL of its chosen
      connection service, and the control URLs of its common interface and of its firewall control. */
  ghost predicate UrlsFor(u: Urls, base: string, descUrl: string, chosen: Service, cif: Service, ipv6fc: Service) {
    && u.rootdescUrl == descUrl
    && Resolves(base, chosen.scpdurl, u.ipcondescUrl) && Resolves(base, chosen.controlurl, u.controlUrl)
    && Resolves(base, cif.controlurl, u.controlUrlCif) && Resolves(base, ipv6fc.controlurl, u.controlUrl6fc)
  }

  // URLBase comes before the address of the description.
  function BaseOf(urlbase: string, descUrl: string): string {
    if urlbase != "" then urlbase else descUrl
  }

  lemma UrlsOfIs(d: Data, descUrl: string)
    ensures UrlsFor(UrlsOf(d, descUrl), BaseOf(d.urlbase, descUrl), descUrl, d.first, d.cif, d.ipv6fc)
  {
    AbsoluteResolves(d.urlbase, descUrl, d.first.scpdurl);
    AbsoluteResolves(d.urlbase, descUrl, d.first.controlurl);
    AbsoluteResolves(d.urlbase, descUrl, d.cif.controlurl);
    AbsoluteResolves(d.urlbase, descUrl, d.ipv6fc.controlurl);
  }

  // The connection services of a description in the order of their ends, as they are seen.
  function ConnectionsOf(doc: Document): seq<Service> {
    OfKind(SeenIn(doc.content, NO_SERVICE), Connection)
  }

  function LastOfKind(doc: Document, k: Kind): Service {
    LastOr(OfKind(SeenIn(doc.content, NO_SERVICE), k), NO_SERVICE)
  }

  /** From the description itself: a device that is chosen for its first connection service, or without one, has the
      URLs of that service; one chosen for its second has those of the last later connection service. */
  lemma DescribedUrls(doc: Document, descUrl: string)
    requires ValidDocument(doc)
    ensures var base := BaseOf(LastTextIn(doc.content, "URLBase", ""), descUrl);
            var d, cs := Described(PrintDocument(doc)), ConnectionsOf(doc);
            var cif, ipv6fc := LastOfKind(doc, CommonInterface), LastOfKind(doc, FirewallControl);
            && UrlsFor(UrlsOf(d, descUrl), base, descUrl, if cs == [] then NO_SERVICE else cs[0], cif, ipv6fc)
            && UrlsFor(UrlsOf(Swapped(d), descUrl), base, descUrl,
                       if cs == [] then NO_SERVICE else LastOr(cs[1..], NO_SERVICE), cif, ipv6fc)
  {
    var d := Described(PrintDocument(doc));
    DescriptionSeen(doc, PrintDocument(doc));
    UrlsOfIs(d, descUrl);
    UrlsOfIs(Swapped(d), descUrl);
  }

  /** struct UPNPUrls: the set it points to, and how many sets are allocated and not yet freed. */
  class UrlStore {
    var urls: Option<Urls>
    var live: nat

    // Every live set is the one pointed to.
    predicate Valid()
      reads this
    {
      live == if urls.Some? then 1 else 0
    }

    constructor ()
      ensures Valid() && urls == None
    {
      urls, live := None, 0;
    }

    /** Zeroing the struct, which forgets a set without freeing it. */
    method Forget()
      modifies this
      ensures urls == None && live == old(live)
    {
      urls := None;
    }

    /** GetUPNPUrls, which allocates a new set */
    method Allocate(d: Data, descUrl: string)
      modifies this
      ensures urls == Some(UrlsOf(d, descUrl)) && live == old(live) + 1
    {
      urls := Some(UrlsOf(d, descUrl));
      live := live + 1;
    }

    /** FreeUPNPUrls; freeing null pointers does nothing */
    method Release()
      requires urls.Some? ==> live > 0
      modifies this
      ensures urls == None && live == if old(urls).Some? then old(live) - 1 else old(live)
    {
      if urls.Some? {
        live := live - 1;
      }
      urls := None;
    }
  }

  // ----- the selection

  // k is the first device with the property.
  predicate FirstWith(devs: seq<Device>, p: Device -> bool, k: nat) {
    k < |devs| && p(devs[k]) && forall j | 0 <= j < k :: !p(devs[j])
  }

  predicate NoneWith(devs: seq<Device>, p: Device -> bool) {
    forall j | 0 <= j < |devs| :: !p(devs[j])
  }

  /** memset and parserootdesc */
  method Load(data: IgdDatas, xml: string)
    modifies data
    ensures data.Value() == Described(xml)
  {
    data.Clear();
    data.Parse(xml, |xml|);
  }

  method ProbeOne(dev: Device, urls: UrlStore, data: IgdDatas) returns (igd: bool)
    requires urls.Valid() && urls.urls == None
    modifies urls, data
    ensures igd == IsIgd(dev) && urls.Valid() && urls.urls == None
  {
    igd := false;
    if dev.desc.Some? {
      urls.Forget();
      Load(data, dev.desc.value);
      igd := KindOf(data.cif.servicetype) == CommonInterface;
    }
  }

  /** Step 1: fetch every description and test its type. */
  method Probe(devs: seq<Device>, urls: UrlStore, data: IgdDatas) returns (isIgd: seq<bool>)
    requires urls.Valid() && urls.urls == None
    modifies urls, data
    ensures |isIgd| == |devs| && forall j | 0 <= j < |devs| :: isIgd[j] == IsIgd(devs[j])
    ensures urls.Valid() && urls.urls == None
  {
    isIgd := [];
    var i := 0;
    while i < |devs|
      invariant 0 <= i == |isIgd| <= |devs| && urls.Valid() && urls.urls == None
      invariant forall j | 0 <= j < i :: isIgd[j] == IsIgd(devs[j])
    {
      var igd := ProbeOne(devs[i], urls, data);
      isIgd := isIgd + [igd];
      i := i + 1;
    }
  }

  // Ask about the service that is first in the data; keep the URL set only if it will do.
  method TryService(urls: UrlStore, data: IgdDatas, descUrl: string, answer: Answer) returns (ok: bool)
    requires urls.Valid() && urls.urls == None
    modifies urls
    ensures ok == Usable(answer)
    ensures urls.Valid() && urls.urls == if ok then Some(UrlsOf(data.Value(), descUrl)) else None
  {
    urls.Allocate(data.Value(), descUrl);
    var connected := answer.status == "Connected" || answer.status == "Up";
    ok := connected && answer.code == 0 && !IsRfc1918(answer.addr) && answer.addr != "" && answer.addr != "0.0.0.0";
    if !ok {
      urls.Release();
    }
  }

  /** State 1 for one device: its first service, then its second. */
  method TryConnected(urls: UrlStore, data: IgdDatas, dev: Device) returns (ok: bool)
    requires IsIgd(dev) && data.Value() == Described(dev.desc.value) && urls.Valid() && urls.urls == None
    modifies urls, data
    ensures ok == Connected(dev) && urls.Valid()
    ensures ok ==> data.Value() == ConnectedData(dev) && urls.urls == Some(UrlsOf(data.Value(), dev.descUrl))
    ensures !ok ==> urls.urls == None
  {
    ok := TryService(urls, data, dev.descUrl, dev.first);
    if ok { return; }
    if data.second.servicetype != "" {
      data.tmp := data.first;
      data.first := data.second;
      data.second := data.tmp;
      ok := TryService(urls, data, dev.descUrl, dev.second);
    }
  }

  // What one state of the search looks for.
  predicate Wanted(state: int, dev: Device) {
    if state == 1 then Connected(dev) else if state == 2 then IsIgd(dev) else Fetched(dev)
  }

  // The data handed back for a device found in a given state.
  function FoundData(state: int, dev: Device): Data
    requires Wanted(state, dev)
  {
    if state == 1 then ConnectedData(dev) else Described(dev.desc.value)
  }

  // One device in a given state; true when the search ends here.
  method Consider(state: int, dev: Device, isIgd: bool, urls: UrlStore, data: IgdDatas) returns (found: bool)
    requires 1 <= state <= 3 && isIgd == IsIgd(dev) && urls.Valid() && urls.urls == None
    modifies urls, data
    ensures found == Wanted(state, dev) && urls.Valid()
    ensures found ==> data.Value() == FoundData(state, dev) && urls.urls == Some(UrlsOf(data.Value(), dev.descUrl))
    ensures !found ==> urls.urls == None
  {
    found := false;
    if dev.desc.Some? {
      urls.Forget();
      Load(data, dev.desc.value);
      if isIgd || state >= 3 {
        if state >= 2 {
          urls.Allocate(data.Value(), dev.descUrl);
          return true;
        }
        found := TryConnected(urls, data, dev);
        if found { return; }
      }
      data.Clear();
    }
  }

  /** One pass over the devices in a given state; returns the device to stop at, if any. */
  method Pass(state: int, devs: seq<Device>, isIgd: seq<bool>, urls: UrlStore, data: IgdDatas) returns (k: nat)
    requires 1 <= state <= 3
    requires |isIgd| == |devs| && forall j | 0 <= j < |devs| :: isIgd[j] == IsIgd(devs[j])
    requires urls.Valid() && urls.urls == None
    modifies urls, data
    ensures k <= |devs| && urls.Valid() && forall j | 0 <= j < k :: !Wanted(state, devs[j])
    ensures k < |devs| ==> Wanted(state, devs[k]) && urls.urls == Some(UrlsOf(data.Value(), devs[k].descUrl))
    ensures k < |devs| ==> data.Value() == FoundData(state, devs[k])
    ensures k == |devs| ==> urls.urls == None
  {
    k := 0;
    while k < |devs|
      invariant 0 <= k <= |devs| && urls.Valid() && urls.urls == None
      invariant PassedBy(state, devs, k)
    {
      var found := Consider(state, devs[k], isIgd[k], urls, data);
      if found { break; }
      k := k + 1;
    }
    NoneWanted(state, devs, k);
  }

  // The first k devices are not wanted.
  predicate PassedBy(state: int, devs: seq<Device>, k: nat)
    requires k <= |devs|
  {
    k > 0 ==> !Wanted(state, devs[k - 1]) && PassedBy(state, devs, k - 1)
  }

  lemma {:induction false} NoneWanted(state: int, devs: seq<Device>, k: nat)
    requires k <= |devs| && PassedBy(state, devs, k)
    ensures forall j | 0 <= j < k :: !Wanted(state, devs[j])
  {
    if k > 0 {
      NoneWanted(state, devs, k - 1);
    }
  }

  /** UPNP_GetValidIGD: 1 exactly when some gateway has a connected service with a usable public address, else
      2 exactly when there is a gateway, else 3 exactly when some description was fetched, else 0.  The device
      is the first such in list order, the data is that device's, and exactly one URL set is live, the one
      handed back, unless the result is 0. */
  method GetValidIgd(devs: seq<Device>, urls: UrlStore, data: IgdDatas) returns (state: int, k: nat)
    requires urls.Valid() && urls.urls == None
    modifies urls, data
    ensures 0 <= state <= 3
    ensures state == 1 <==> !NoneWith(devs, Connected)
    ensures state == 2 <==> NoneWith(devs, Connected) && !NoneWith(devs, IsIgd)
    ensures state == 3 <==> NoneWith(devs, IsIgd) && !NoneWith(devs, Fetched)
    ensures state == 1 ==> FirstWith(devs, Connected, k) && data.Value() == ConnectedData(devs[k])
    ensures state == 2 ==> FirstWith(devs, IsIgd, k) && data.Value() == Described(devs[k].desc.value)
    ensures state == 3 ==> FirstWith(devs, Fetched, k) && data.Value() == Described(devs[k].desc.value)
    ensures urls.live == if state == 0 then 0 else 1
    ensures state > 0 ==> urls.urls == Some(UrlsOf(data.Value(), devs[k].descUrl))
    ensures state > 0 ==>
            UrlsFor(urls.urls.value, BaseOf(data.urlbase, devs[k].descUrl), devs[k].descUrl, data.first, data.cif,
                    data.ipv6fc)
  {
    k := 0;
    if devs == [] {
      return 0, k;
    }
    var isIgd := Probe(devs, urls, data);
    state := 1;
    while state <= 3
      invariant 1 <= state <= 4 && urls.Valid() && urls.urls == None
      invariant state > 1 ==> NoneWith(devs, Connected)
      invariant state > 2 ==> NoneWith(devs, IsIgd)
      invariant state > 3 ==> NoneWith(devs, Fetched)
    {
      k := Pass(state, devs, isIgd, urls, data);
      if k < |devs| {
        UrlsOfIs(data.Value(), devs[k].descUrl);
        return;
      }
      state := state + 1;
    }
    state := 0;
  }
}

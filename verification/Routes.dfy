/** Parsing and printing of kernel routes. */
module Routes {
  import opened Bytes
  import opened Identities
  import opened Decimal
  import opened Text

  datatype Route =
    | DefaultRoute(via: IpAddr, nic: string, proto: Option<string>, src: Option<IpAddr>, metric: Option<nat>)
    | ToSubnet(dst: IpAddr, subnet: nat, gateway: Option<IpAddr>, nic: string, proto: Option<string>,
               src: Option<IpAddr>, metric: Option<nat>, scope: Option<string>)

  datatype RouteError = EmptyRouteString | InvalidRouteString | BadAddress | BadSubnet

  predicate IpChar(c: char) {
    '0' <= c <= '9' || 'a' <= c <= 'f' || 'A' <= c <= 'F' || c == '.' || c == ':'
  }

  /** The standard library's address text; `Lawful` is all that is assumed of it. */
  datatype IpCodec = IpCodec(show: IpAddr -> string, parse: string -> Option<IpAddr>) {
    ghost predicate Lawful() {
      && (forall ip :: parse(show(ip)) == Some(ip) && show(ip) != "" && ShowsLower(show(ip)))
      && (forall s :: parse(s).Some? ==> forall i :: 0 <= i < |s| ==> IpChar(s[i]))
    }
  }

  predicate ShowsLower(s: string) {
    forall i :: 0 <= i < |s| ==> IpChar(s[i]) && !('A' <= s[i] <= 'F')
  }

  // ------------------------------------------------------------------ text

  function LowerChar(c: char): char {
    if 'A' <= c <= 'Z' then c + 32 as char else c
  }

  function Lower(s: string): (r: string)
    ensures |r| == |s| && forall i :: 0 <= i < |s| ==> r[i] == LowerChar(s[i])
  {
    if s == "" then "" else [LowerChar(s[0])] + Lower(s[1..])
  }

  predicate Contains(s: string, word: string) {
    word <= s || (s != "" && Contains(s[1..], word))
  }

  /** The test by which `get_item` finds a keyword: anywhere inside a token, in any case. */
  predicate Mentions(token: string, word: string) {
    Contains(Lower(token), word)
  }

  /** The position of the first space, or the length. */
  function WordEnd(s: string): (n: nat)
    ensures n <= |s| && (n < |s| ==> IsSpace(s[n])) && forall i :: 0 <= i < n ==> !IsSpace(s[i])
  {
    if s == "" || IsSpace(s[0]) then 0 else 1 + WordEnd(s[1..])
  }

  ghost predicate IsToken(t: string) {
    t != "" && forall i :: 0 <= i < |t| ==> !IsSpace(t[i])
  }

  /** `split_whitespace`. */
  function Tokens(s: string): (ts: seq<string>)
    ensures forall i :: 0 <= i < |ts| ==> IsToken(ts[i])
    decreases |s|
  {
    if s == "" then []
    else if IsSpace(s[0]) then Tokens(s[1..])
    else [s[..WordEnd(s)]] + Tokens(s[WordEnd(s)..])
  }

  /** The pieces before the first slash and, if there is one, between it and the next. */
  function SplitSlash(s: string): (string, Option<string>) {
    var n := Find(s, '/');
    if n == |s| then (s, None) else (s[..n], Some(s[n + 1..n + 1 + Find(s[n + 1..], '/')]))
  }

  // ------------------------------------------------------------------ parsing

  /** `get_item`. */
  function GetItem(list: seq<string>, item: string): Option<string> {
    if list == [] then None
    else if Mentions(list[0], item) then (if |list| > 1 then Some(list[1]) else None)
    else GetItem(list[1..], item)
  }

  function GetIp(ips: IpCodec, list: seq<string>, item: string): Option<IpAddr> {
    match GetItem(list, item) case Some(s) => ips.parse(s) case None => None
  }

  function GetNumber(list: seq<string>, item: string): Option<nat> {
    match GetItem(list, item) case Some(s) => ParseU16(s) case None => None
  }

  predicate AnyMentions(list: seq<string>, word: string) {
    exists i :: 0 <= i < |list| && Mentions(list[i], word)
  }

  /** `IpRoute::from_str`. */
  function ParseRoute(ips: IpCodec, s: string): Outcome<Route, RouteError> {
    var list := Tokens(s);
    if list == [] then Err(EmptyRouteString)
    else if AnyMentions(list, "default") then ParseDefault(ips, list)
    else ParseSubnet(ips, list)
  }

  function ParseDefault(ips: IpCodec, list: seq<string>): Outcome<Route, RouteError> {
    match (GetItem(list, "via"), GetItem(list, "dev"))
    case (Some(via), Some(nic)) =>
      (match ips.parse(via)
       case Some(ip) =>
         Ok(DefaultRoute(ip, nic, GetItem(list, "proto"), GetIp(ips, list, "src"), GetNumber(list, "metric")))
       case None => Err(BadAddress))
    case _ => Err(InvalidRouteString)
  }

  function ParseSubnet(ips: IpCodec, list: seq<string>): Outcome<Route, RouteError>
    requires list != []
  {
    var (addr, mask) := SplitSlash(list[0]);
    var subnet := match mask case Some(m) => ParseU16(m) case None => Some(32);
    match ips.parse(addr)
    case None => Err(BadAddress)
    case Some(dst) =>
      if subnet.None? then Err(BadSubnet)
      else match GetItem(list, "dev")
        case None => Err(InvalidRouteString)
        case Some(nic) =>
          Ok(ToSubnet(dst, subnet.value, GetIp(ips, list, "via"), nic, GetItem(list, "proto"),
                      GetIp(ips, list, "src"), GetNumber(list, "metric"), GetItem(list, "scope")))
  }

  // ------------------------------------------------------------------ printing

  function SrcText(ips: IpCodec, src: Option<IpAddr>): string {
    match src case Some(ip) => " src " + ips.show(ip) case None => ""
  }

  function DstText(ips: IpCodec, dst: IpAddr, subnet: nat): string {
    if subnet == 32 then ips.show(dst) else ips.show(dst) + "/" + Show(subnet)
  }

  function ViaText(ips: IpCodec, via: Option<IpAddr>): string {
    match via case Some(ip) => " via " + ips.show(ip) case None => ""
  }

  function NicText(nic: string): string { " dev " + nic + " proto static" }

  /** `Display for IpRoute`. */
  function ShowRoute(ips: IpCodec, r: Route): string {
    match r
    case DefaultRoute(via, nic, _, src, _) =>
      "default" + ViaText(ips, Some(via)) + NicText(nic) + SrcText(ips, src)
    case ToSubnet(dst, subnet, via, nic, _, src, _, _) =>
      DstText(ips, dst, subnet) + ViaText(ips, via) + NicText(nic) + SrcText(ips, src)
  }

  /** What a printed route keeps: the protocol becomes static and the other tags are dropped. */
  function Printed(r: Route): Route {
    match r
    case DefaultRoute(via, nic, _, src, _) => DefaultRoute(via, nic, Some("static"), src, None)
    case ToSubnet(dst, subnet, via, nic, _, src, _, _) =>
      ToSubnet(dst, subnet, via, nic, Some("static"), src, None, None)
  }

  // ------------------------------------------------------------------ tokens of printed text

  lemma {:induction false} WordEndOf(t: string, rest: string)
    requires IsToken(t) && (rest == "" || IsSpace(rest[0]))
    ensures WordEnd(t + rest) == |t|
  {
    var n := WordEnd(t + rest);
    assert forall i :: 0 <= i < |t| ==> (t + rest)[i] == t[i];
    if |t| < |t + rest| {
      assert (t + rest)[|t|] == rest[0];
    }
  }

  /** A token at the front of the text. */
  lemma TokensFront(t: string, rest: string)
    requires IsToken(t) && (rest == "" || IsSpace(rest[0]))
    ensures Tokens(t + rest) == [t] + Tokens(rest)
  {
    WordEndOf(t, rest);
    assert (t + rest)[0] == t[0] && (t + rest)[..|t|] == t && (t + rest)[|t|..] == rest;
  }

  /** Tokens joined by single spaces, with a space in front of each. */
  function Spaced(ts: seq<string>): string {
    if ts == [] then "" else " " + ts[0] + Spaced(ts[1..])
  }

  ghost predicate AllTokens(ts: seq<string>) {
    forall i :: 0 <= i < |ts| ==> IsToken(ts[i])
  }

  lemma SkipSpace(s: string)
    ensures Tokens(" " + s) == Tokens(s)
  {
    assert (" " + s)[1..] == s;
  }

  lemma {:induction false} TokensSpaced(ts: seq<string>)
    requires AllTokens(ts)
    ensures Tokens(Spaced(ts)) == ts
  {
    hide Tokens, IsToken;
    if ts == [] {
      NoTokens();
    } else {
      var rest := Spaced(ts[1..]);
      TokensSpaced(ts[1..]);
      SpacedStart(ts[1..]);
      hide Spaced;
      TokensFront(ts[0], rest);
      SkipSpace(ts[0] + rest);
      SpacedFirst(ts);
      assert [ts[0]] + ts[1..] == ts;
    }
  }

  lemma NoTokens()
    ensures Tokens("") == []
  {
  }

  lemma SpacedStart(ts: seq<string>)
    ensures Spaced(ts) == "" || IsSpace(Spaced(ts)[0])
  {
  }

  lemma SpacedFirst(ts: seq<string>)
    requires ts != []
    ensures Spaced(ts) == " " + (ts[0] + Spaced(ts[1..]))
  {
  }

  lemma TokensLine(first: string, ts: seq<string>)
    requires IsToken(first) && AllTokens(ts)
    ensures Tokens(first + Spaced(ts)) == [first] + ts
  {
    hide Tokens, IsToken, Spaced;
    SpacedStart(ts);
    TokensFront(first, Spaced(ts));
    TokensSpaced(ts);
  }

  lemma {:induction false} SpacedAppend(a: seq<string>, b: seq<string>)
    ensures Spaced(a + b) == Spaced(a) + Spaced(b)
  {
    if a == [] {
      assert a + b == b;
    } else {
      assert (a + b)[1..] == a[1..] + b;
      SpacedAppend(a[1..], b);
    }
  }

  function SrcTokens(ips: IpCodec, src: Option<IpAddr>): seq<string> {
    match src case Some(ip) => ["src", ips.show(ip)] case None => []
  }

  function ViaTokens(ips: IpCodec, via: Option<IpAddr>): seq<string> {
    match via case Some(ip) => ["via", ips.show(ip)] case None => []
  }

  function First(ips: IpCodec, r: Route): string {
    match r
    case DefaultRoute(_, _, _, _, _) => "default"
    case ToSubnet(dst, subnet, _, _, _, _, _, _) => DstText(ips, dst, subnet)
  }

  function Gateway(r: Route): Option<IpAddr> {
    match r case DefaultRoute(via, _, _, _, _) => Some(via) case ToSubnet(_, _, via, _, _, _, _, _) => via
  }

  function RestTokens(ips: IpCodec, r: Route): seq<string> {
    ViaTokens(ips, Gateway(r)) + ["dev", r.nic, "proto", "static"] + SrcTokens(ips, r.src)
  }

  /** The printed text is its tokens joined by spaces. */
  lemma ShownAsTokens(ips: IpCodec, r: Route)
    ensures ShowRoute(ips, r) == First(ips, r) + Spaced(RestTokens(ips, r))
  {
    hide Spaced;
    var via, mid, src := ViaTokens(ips, Gateway(r)), ["dev", r.nic, "proto", "static"], SrcTokens(ips, r.src);
    SpacedAppend(via + mid, src);
    SpacedAppend(via, mid);
    SpacedMiddle(r.nic);
    SpacedSrc(ips, r.src);
    SpacedVia(ips, Gateway(r));
    hide *;
    ShownPieces(ips, r);
    var v, m, s := Spaced(via), Spaced(mid), Spaced(src);
    assert First(ips, r) + v + m + s == First(ips, r) + (v + m + s);
  }

  lemma ShownPieces(ips: IpCodec, r: Route)
    ensures ShowRoute(ips, r) == First(ips, r) + ViaText(ips, Gateway(r)) + NicText(r.nic) + SrcText(ips, r.src)
    ensures RestTokens(ips, r) ==
      ViaTokens(ips, Gateway(r)) + ["dev", r.nic, "proto", "static"] + SrcTokens(ips, r.src)
  {
  }

  lemma SpacedMiddle(nic: string)
    ensures Spaced(["dev", nic, "proto", "static"]) == NicText(nic)
  {
    var ts := ["dev", nic, "proto", "static"];
    SpacedAppend(["dev", nic], ["proto", "static"]);
    assert ["dev", nic] + ["proto", "static"] == ts;
    SpacedPair("dev", nic);
    SpacedPair("proto", "static");
    assert " " + "proto" + " " + "static" == " proto static";
    assert " " + "dev" + " " == " dev ";
  }

  lemma SpacedPair(a: string, b: string)
    ensures Spaced([a, b]) == " " + a + " " + b
  {
    assert [a, b][1..] == [b] && [b][1..] == [];
    assert Spaced([b]) == " " + b + "" == " " + b;
    assert " " + a + (" " + b) == " " + a + " " + b;
  }

  lemma SpacedSrc(ips: IpCodec, src: Option<IpAddr>)
    ensures Spaced(SrcTokens(ips, src)) == SrcText(ips, src)
  {
    if src.Some? {
      SpacedPair("src", ips.show(src.value));
      assert " " + "src" + " " == " src ";
    }
  }

  lemma SpacedVia(ips: IpCodec, via: Option<IpAddr>)
    ensures Spaced(ViaTokens(ips, via)) == ViaText(ips, via)
  {
    if via.Some? {
      SpacedPair("via", ips.show(via.value));
      assert " " + "via" + " " == " via ";
    }
  }

  // ------------------------------------------------------------------ which tokens mention which keyword

  ghost predicate Quiet(list: seq<string>, word: string) {
    forall i :: 0 <= i < |list| ==> !Mentions(list[i], word)
  }

  lemma NotPrefix(s: string, word: string, j: nat)
    requires j < |word| && (j < |s| ==> s[j] != word[j])
    ensures !(word <= s)
  {
  }

  /** A word cannot occur in text that lacks one of its letters. */
  lemma {:induction false} LacksLetter(s: string, word: string, j: nat)
    requires j < |word| && forall i :: 0 <= i < |s| ==> s[i] != word[j]
    ensures !Contains(s, word)
  {
    NotPrefix(s, word, j);
    if s != "" {
      LacksLetter(s[1..], word, j);
    }
  }

  /** Address text, also with a prefix length. */
  ghost predicate AddressText(t: string) {
    forall i :: 0 <= i < |t| ==> (IpChar(t[i]) && !('A' <= t[i] <= 'F')) || t[i] == '/'
  }

  lemma AddressIsQuiet(t: string)
    requires AddressText(t)
    ensures !Mentions(t, "default") && !Mentions(t, "via") && !Mentions(t, "dev") && !Mentions(t, "proto")
    ensures !Mentions(t, "src") && !Mentions(t, "metric") && !Mentions(t, "scope")
  {
    var l := Lower(t);
    assert forall i :: 0 <= i < |l| ==> l[i] == t[i];
    LacksLetter(l, "default", 4);
    LacksLetter(l, "via", 0);
    LacksLetter(l, "dev", 2);
    LacksLetter(l, "proto", 0);
    LacksLetter(l, "src", 0);
    LacksLetter(l, "metric", 0);
    LacksLetter(l, "scope", 0);
  }

  lemma LowerOf(t: string)
    requires forall i :: 0 <= i < |t| ==> !('A' <= t[i] <= 'Z')
    ensures Lower(t) == t
  {
  }

  lemma SelfMention(t: string)
    requires forall i :: 0 <= i < |t| ==> !('A' <= t[i] <= 'Z')
    ensures Mentions(t, t)
  {
    LowerOf(t);
  }

  lemma DefaultToken()
    ensures Mentions("default", "default") && !Mentions("default", "via") && !Mentions("default", "dev")
    ensures !Mentions("default", "proto") && !Mentions("default", "src") && !Mentions("default", "metric")
  {
    hide Contains, Lower;
    SelfMention("default");
    LowerOf("default");
    LacksLetter("default", "via", 0);
    LacksLetter("default", "dev", 2);
    LacksLetter("default", "proto", 0);
    LacksLetter("default", "src", 0);
    LacksLetter("default", "metric", 0);
  }

  lemma ViaToken()
    ensures Mentions("via", "via") && !Mentions("via", "default") && !Mentions("via", "dev")
    ensures !Mentions("via", "proto")
    ensures !Mentions("via", "src") && !Mentions("via", "metric") && !Mentions("via", "scope")
  {
    hide Contains, Lower;
    SelfMention("via");
    LowerOf("via");
    LacksLetter("via", "default", 0);
    LacksLetter("via", "dev", 0);
    LacksLetter("via", "proto", 0);
    LacksLetter("via", "src", 0);
    LacksLetter("via", "metric", 0);
    LacksLetter("via", "scope", 0);
  }

  lemma DevToken()
    ensures Mentions("dev", "dev") && !Mentions("dev", "default") && !Mentions("dev", "via")
    ensures !Mentions("dev", "proto")
    ensures !Mentions("dev", "src") && !Mentions("dev", "metric") && !Mentions("dev", "scope")
  {
    hide Contains, Lower;
    SelfMention("dev");
    LowerOf("dev");
    LacksLetter("dev", "default", 2);
    LacksLetter("dev", "via", 1);
    LacksLetter("dev", "proto", 0);
    LacksLetter("dev", "src", 0);
    LacksLetter("dev", "metric", 0);
    LacksLetter("dev", "scope", 0);
  }

  lemma ProtoToken()
    ensures Mentions("proto", "proto") && !Mentions("proto", "default") && !Mentions("proto", "via")
    ensures !Mentions("proto", "src") && !Mentions("proto", "metric") && !Mentions("proto", "scope")
  {
    hide Contains, Lower;
    SelfMention("proto");
    LowerOf("proto");
    LacksLetter("proto", "default", 0);
    LacksLetter("proto", "via", 0);
    LacksLetter("proto", "src", 0);
    LacksLetter("proto", "metric", 0);
    LacksLetter("proto", "scope", 0);
  }

  lemma StaticToken()
    ensures !Mentions("static", "default") && !Mentions("static", "via")
    ensures !Mentions("static", "src") && !Mentions("static", "metric") && !Mentions("static", "scope")
  {
    hide Contains, Lower;
    LowerOf("static");
    LacksLetter("static", "default", 0);
    LacksLetter("static", "via", 0);
    LacksLetter("static", "src", 1);
    LacksLetter("static", "metric", 0);
    LacksLetter("static", "scope", 2);
  }

  lemma SrcToken()
    ensures Mentions("src", "src") && !Mentions("src", "default") && !Mentions("src", "via")
    ensures !Mentions("src", "metric") && !Mentions("src", "scope")
  {
    hide Contains, Lower;
    SelfMention("src");
    LowerOf("src");
    LacksLetter("src", "default", 0);
    LacksLetter("src", "via", 0);
    LacksLetter("src", "metric", 0);
    LacksLetter("src", "scope", 2);
  }

  // ------------------------------------------------------------------ finding the tags of a printed route

  lemma {:induction false} SkipQuiet(a: seq<string>, b: seq<string>, item: string)
    requires Quiet(a, item)
    ensures GetItem(a + b, item) == GetItem(b, item)
  {
    hide Mentions;
    if a == [] {
      assert a + b == b;
    } else {
      assert (a + b)[1..] == a[1..] + b && (a + b)[0] == a[0];
      SkipQuiet(a[1..], b, item);
    }
  }

  lemma QuietFindsNothing(a: seq<string>, item: string)
    requires Quiet(a, item)
    ensures GetItem(a, item) == None
  {
    hide Mentions;
    SkipQuiet(a, [], item);
    assert a + [] == a;
  }

  /** The tokens before the interface name and after it. */
  function Before(ips: IpCodec, r: Route): seq<string> {
    [First(ips, r)] + ViaTokens(ips, Gateway(r)) + ["dev"]
  }

  function Behind(ips: IpCodec, r: Route): seq<string> {
    ["proto", "static"] + SrcTokens(ips, r.src)
  }

  /** A tag that does not come before the name: the name itself shadows it when it mentions the tag. */
  lemma TagBehind(ips: IpCodec, r: Route, item: string)
    requires Quiet(Before(ips, r), item)
    ensures GetItem(Before(ips, r) + [r.nic] + Behind(ips, r), item) ==
      if Mentions(r.nic, item) then Some("proto") else GetItem(Behind(ips, r), item)
  {
    hide Mentions, Before;
    var b := [r.nic] + Behind(ips, r);
    assert Before(ips, r) + [r.nic] + Behind(ips, r) == Before(ips, r) + b;
    SkipQuiet(Before(ips, r), b, item);
    assert b[1..] == Behind(ips, r) && b[1] == "proto";
  }

  lemma ShowIsAddress(ips: IpCodec, ip: IpAddr)
    requires ips.Lawful()
    ensures AddressText(ips.show(ip)) && IsToken(ips.show(ip))
  {
    assert ips.parse(ips.show(ip)) == Some(ip) && ShowsLower(ips.show(ip));
  }

  lemma WithLength(a: string, b: string)
    requires AddressText(a) && IsToken(a) && forall i :: 0 <= i < |b| ==> b[i] in DIGITS
    ensures AddressText(a + "/" + b) && IsToken(a + "/" + b)
  {
    var t := a + "/" + b;
    assert forall i :: 0 <= i < |t| ==> t[i] == if i < |a| then a[i] else if i == |a| then '/' else b[i - |a| - 1];
  }

  lemma FirstIsAddress(ips: IpCodec, r: Route)
    requires ips.Lawful()
    ensures IsToken(First(ips, r))
    ensures r.ToSubnet? ==> AddressText(First(ips, r))
    ensures forall ip :: AddressText(ips.show(ip)) && IsToken(ips.show(ip))
  {
    forall ip ensures AddressText(ips.show(ip)) && IsToken(ips.show(ip)) {
      ShowIsAddress(ips, ip);
    }
    if r.ToSubnet? {
      WithLength(ips.show(r.dst), Show(r.subnet));
    }
  }

  lemma FirstOfDefault(ips: IpCodec, r: Route)
    ensures r.DefaultRoute? ==> First(ips, r) == "default"
  {
  }

  /** Nothing before the interface name mentions the tags that follow it. */
  lemma BeforeIsQuiet(ips: IpCodec, r: Route)
    requires ips.Lawful()
    ensures Quiet(Before(ips, r), "proto") && Quiet(Before(ips, r), "src") && Quiet(Before(ips, r), "metric")
    ensures r.ToSubnet? ==> Quiet(Before(ips, r), "scope") && Quiet(Before(ips, r), "default")
    ensures r.ToSubnet? && r.gateway.None? ==> Quiet(Before(ips, r), "via")
    ensures Quiet([First(ips, r)] + ViaTokens(ips, Gateway(r)), "dev") && !Mentions(First(ips, r), "via")
  {
    hide Mentions, AddressText, IsToken, First;
    FirstIsAddress(ips, r);
    FirstOfDefault(ips, r);
    DefaultToken();
    ViaToken();
    DevToken();
    if r.ToSubnet? {
      AddressIsQuiet(First(ips, r));
    }
    if Gateway(r).Some? {
      AddressIsQuiet(ips.show(Gateway(r).value));
    }
  }

  lemma BehindItems(ips: IpCodec, r: Route)
    requires ips.Lawful()
    ensures GetItem(Behind(ips, r), "proto") == Some("static")
    ensures GetItem(Behind(ips, r), "src") == match r.src case Some(ip) => Some(ips.show(ip)) case None => None
    ensures GetItem(Behind(ips, r), "metric") == None && GetItem(Behind(ips, r), "scope") == None
    ensures GetItem(Behind(ips, r), "via") == None && Quiet(Behind(ips, r), "default")
  {
    hide Mentions, SrcTokens;
    ProtoToken();
    StaticToken();
    SrcItems(ips, r);
    var front, tail := ["proto", "static"], SrcTokens(ips, r.src);
    assert Quiet(front, "src") && Quiet(front, "via") && Quiet(front, "metric") && Quiet(front, "scope");
    SkipQuiet(front, tail, "src");
    SkipQuiet(front, tail, "metric");
    SkipQuiet(front, tail, "scope");
    SkipQuiet(front, tail, "via");
  }

  lemma SrcItems(ips: IpCodec, r: Route)
    requires ips.Lawful()
    ensures var t := SrcTokens(ips, r.src);
      GetItem(t, "src") == (match r.src case Some(ip) => Some(ips.show(ip)) case None => None) &&
      GetItem(t, "metric") == None && GetItem(t, "scope") == None && GetItem(t, "via") == None && Quiet(t, "default")
  {
    hide Mentions, AddressText, IsToken;
    SrcToken();
    if r.src.Some? {
      FirstIsAddress(ips, r);
      AddressIsQuiet(ips.show(r.src.value));
      var t := SrcTokens(ips, r.src);
      QuietFindsNothing(t, "metric");
      QuietFindsNothing(t, "scope");
      QuietFindsNothing(t, "via");
    }
  }

  lemma NotAnAddress(ips: IpCodec)
    requires ips.Lawful()
    ensures ips.parse("proto") == None && ParseU16("proto") == None
  {
    assert !IpChar("proto"[0]);
    ValueRejects("proto", 0);
  }

  /** What the tags of a printed route read as, whatever the interface is called. */
  lemma ReadTags(ips: IpCodec, r: Route, list: seq<string>)
    requires ips.Lawful() && list == Before(ips, r) + [r.nic] + Behind(ips, r)
    ensures GetItem(list, "dev") == Some(r.nic)
    ensures GetIp(ips, list, "via") == Gateway(r)
    ensures r.DefaultRoute? ==> GetItem(list, "via") == Some(ips.show(r.via))
    ensures GetItem(list, "proto") == Some(if Mentions(r.nic, "proto") then "proto" else "static")
    ensures GetIp(ips, list, "src") == if Mentions(r.nic, "src") then None else r.src
    ensures GetNumber(list, "metric") == None
    ensures r.ToSubnet? ==> GetItem(list, "scope") == if Mentions(r.nic, "scope") then Some("proto") else None
  {
    hide Mentions, Before, Behind;
    BeforeIsQuiet(ips, r);
    BehindItems(ips, r);
    NotAnAddress(ips);
    LawfulShow(ips);
    TagBehind(ips, r, "proto");
    TagBehind(ips, r, "src");
    TagBehind(ips, r, "metric");
    if r.ToSubnet? {
      TagBehind(ips, r, "scope");
    }
    ReadDev(ips, r, list);
    ReadVia(ips, r, list);
  }

  lemma LawfulShow(ips: IpCodec)
    requires ips.Lawful()
    ensures forall ip :: ips.parse(ips.show(ip)) == Some(ip)
  {
  }

  lemma ReadDev(ips: IpCodec, r: Route, list: seq<string>)
    requires ips.Lawful() && list == Before(ips, r) + [r.nic] + Behind(ips, r)
    ensures GetItem(list, "dev") == Some(r.nic)
  {
    hide Mentions, Behind;
    BeforeIsQuiet(ips, r);
    DevToken();
    var a := [First(ips, r)] + ViaTokens(ips, Gateway(r));
    var b := ["dev", r.nic] + Behind(ips, r);
    assert list == a + b;
    SkipQuiet(a, b, "dev");
  }

  lemma ReadVia(ips: IpCodec, r: Route, list: seq<string>)
    requires ips.Lawful() && list == Before(ips, r) + [r.nic] + Behind(ips, r)
    ensures GetIp(ips, list, "via") == Gateway(r)
    ensures r.DefaultRoute? ==> GetItem(list, "via") == Some(ips.show(r.via))
  {
    hide Mentions, Behind;
    BeforeIsQuiet(ips, r);
    ViaToken();
    LawfulShow(ips);
    if Gateway(r).Some? {
      var a := [First(ips, r)];
      var b := ["via", ips.show(Gateway(r).value), "dev", r.nic] + Behind(ips, r);
      assert list == a + b;
      SkipQuiet(a, b, "via");
    } else {
      NotAnAddress(ips);
      BehindItems(ips, r);
      TagBehind(ips, r, "via");
    }
  }

  // ------------------------------------------------------------------ round trip

  /** The interface names that survive printing and parsing. */
  ghost predicate GoodNic(r: Route) {
    IsToken(r.nic) && !Mentions(r.nic, "proto") && (r.src.Some? ==> !Mentions(r.nic, "src")) &&
    (r.ToSubnet? ==> !Mentions(r.nic, "scope") && !Mentions(r.nic, "default"))
  }

  lemma LiteralTokens()
    ensures IsToken("via") && IsToken("dev") && IsToken("proto") && IsToken("static") && IsToken("src")
  {
  }

  lemma AllAppend(a: seq<string>, b: seq<string>)
    requires AllTokens(a) && AllTokens(b)
    ensures AllTokens(a + b)
  {
  }

  lemma RestParts(ips: IpCodec, r: Route)
    ensures RestTokens(ips, r) ==
      ViaTokens(ips, Gateway(r)) + ["dev", r.nic, "proto", "static"] + SrcTokens(ips, r.src)
  {
  }

  lemma RestAreTokens(ips: IpCodec, r: Route)
    requires ips.Lawful() && IsToken(r.nic)
    ensures AllTokens(RestTokens(ips, r))
  {
    hide IsToken, AddressText, First;
    FirstIsAddress(ips, r);
    LiteralTokens();
    var via, middle, src := ViaTokens(ips, Gateway(r)), ["dev", r.nic, "proto", "static"], SrcTokens(ips, r.src);
    assert AllTokens(via) && AllTokens(middle) && AllTokens(src);
    hide *;
    AllAppend(via, middle);
    AllAppend(via + middle, src);
    assert RestTokens(ips, r) == via + middle + src by {
      RestParts(ips, r);
    }
  }

  lemma SameTokens(f: string, v: seq<string>, nic: string, s: seq<string>)
    ensures [f] + (v + ["dev", nic, "proto", "static"] + s) ==
      [f] + v + ["dev"] + [nic] + (["proto", "static"] + s)
  {
  }

  lemma PrintedTokens(ips: IpCodec, r: Route)
    requires ips.Lawful() && IsToken(r.nic)
    ensures Tokens(ShowRoute(ips, r)) == Before(ips, r) + [r.nic] + Behind(ips, r)
  {
    hide ShowRoute, Tokens, Spaced, First, IsToken, AddressText, ViaTokens, SrcTokens;
    FirstIsAddress(ips, r);
    ShownAsTokens(ips, r);
    RestAreTokens(ips, r);
    TokensLine(First(ips, r), RestTokens(ips, r));
    SameTokens(First(ips, r), ViaTokens(ips, Gateway(r)), r.nic, SrcTokens(ips, r.src));
  }

  lemma MentionsDefault(ips: IpCodec, r: Route, list: seq<string>)
    requires ips.Lawful() && list == Before(ips, r) + [r.nic] + Behind(ips, r)
    ensures AnyMentions(list, "default") <==> r.DefaultRoute? || Mentions(r.nic, "default")
  {
    hide Mentions;
    BeforeIsQuiet(ips, r);
    BehindItems(ips, r);
    DefaultToken();
    var n := |Before(ips, r)|;
    assert list[n] == r.nic;
    if r.DefaultRoute? {
      assert list[0] == "default";
    } else {
      assert forall i :: 0 <= i < n ==> list[i] == Before(ips, r)[i];
      assert forall i :: n < i < |list| ==> list[i] == Behind(ips, r)[i - n - 1];
    }
  }

  /** The destination and its prefix length read back, also the implicit 32. */
  lemma DstReads(ips: IpCodec, r: Route)
    requires ips.Lawful() && r.ToSubnet? && r.subnet < U16
    ensures var (addr, mask) := SplitSlash(First(ips, r));
      ips.parse(addr) == Some(r.dst) && (match mask case Some(m) => ParseU16(m) case None => Some(32)) == Some(r.subnet)
  {
    hide ParseU16;
    LawfulShow(ips);
    var a := ips.show(r.dst);
    NoSlash(ips, r.dst);
    if r.subnet == 32 {
      assert Find(a, '/') == |a|;
    } else {
      var b := Show(r.subnet);
      ParseShow(r.subnet);
      assert forall i :: 0 <= i < |b| ==> b[i] in DIGITS;
      SlashOf(a, b);
    }
  }

  lemma NoSlash(ips: IpCodec, ip: IpAddr)
    requires ips.Lawful()
    ensures forall i :: 0 <= i < |ips.show(ip)| ==> ips.show(ip)[i] != '/'
  {
    assert ips.parse(ips.show(ip)) == Some(ip) && ShowsLower(ips.show(ip));
  }

  lemma SlashOf(a: string, b: string)
    requires forall i :: 0 <= i < |a| ==> a[i] != '/'
    requires forall i :: 0 <= i < |b| ==> b[i] != '/'
    ensures SplitSlash(a + "/" + b) == (a, Some(b))
  {
    var s := a + "/" + b;
    assert s[|a|] == '/' && forall i :: 0 <= i < |a| ==> s[i] == a[i];
    assert Find(s, '/') == |a|;
    assert s[..|a|] == a && s[|a| + 1..] == b;
    assert Find(b, '/') == |b|;
    assert s[|a| + 1..|a| + 1 + |b|] == b;
  }

  lemma ParsedNicIsToken(ips: IpCodec, s: string)
    ensures ParseRoute(ips, s).Ok? ==> IsToken(ParseRoute(ips, s).value.nic)
  {
    hide Tokens, Mentions;
    ItemIsToken(Tokens(s), "dev");
  }

  lemma {:induction false} ItemIsToken(list: seq<string>, item: string)
    requires AllTokens(list)
    ensures GetItem(list, item).Some? ==> IsToken(GetItem(list, item).value)
  {
    hide Mentions;
    if list != [] {
      ItemIsToken(list[1..], item);
    }
  }

  /**
   * Parsing a printed route gives the same route, its protocol static and the dropped tags cleared,
   * exactly when its interface name is good.
   */
  lemma PrintParseIff(ips: IpCodec, r: Route)
    requires ips.Lawful() && (r.ToSubnet? ==> r.subnet < U16)
    ensures ParseRoute(ips, ShowRoute(ips, r)) == Ok(Printed(r)) <==> GoodNic(r)
  {
    hide Tokens, Mentions, ShowRoute, Before, Behind, SplitSlash, First, GetItem;
    var s := ShowRoute(ips, r);
    if !IsToken(r.nic) {
      ParsedNicIsToken(ips, s);
    } else {
      var list := Before(ips, r) + [r.nic] + Behind(ips, r);
      PrintedTokens(ips, r);
      MentionsDefault(ips, r, list);
      ReadTags(ips, r, list);
      LawfulShow(ips);
      if r.ToSubnet? {
        DstReads(ips, r);
        FrontToken(ips, r, list);
      }
    }
  }

  lemma FrontToken(ips: IpCodec, r: Route, list: seq<string>)
    requires list == Before(ips, r) + [r.nic] + Behind(ips, r)
    ensures list != [] && list[0] == First(ips, r)
  {
  }

  // ------------------------------------------------------------------ reading any line

  /** The first token that mentions the tag is followed by `v`. */
  ghost predicate Tagged(list: seq<string>, item: string, v: string) {
    exists a, t, b :: TaggedAt(list, item, v, a, t, b)
  }

  ghost predicate TaggedAt(list: seq<string>, item: string, v: string, a: seq<string>, t: string, b: seq<string>) {
    list == a + [t, v] + b && Mentions(t, item) && Quiet(a, item)
  }

  lemma ItemReads(list: seq<string>, item: string, v: string, a: seq<string>, t: string, b: seq<string>)
    requires TaggedAt(list, item, v, a, t, b)
    ensures GetItem(list, item) == Some(v)
  {
    hide Mentions;
    assert list == a + ([t, v] + b);
    SkipQuiet(a, [t, v] + b, item);
  }

  lemma {:induction false} ItemIsTagged(list: seq<string>, item: string)
    ensures GetItem(list, item).Some? ==> Tagged(list, item, GetItem(list, item).value)
  {
    hide Mentions;
    if list != [] && GetItem(list, item).Some? {
      var v := GetItem(list, item).value;
      if Mentions(list[0], item) {
        assert TaggedAt(list, item, v, [], list[0], list[2..]);
      } else {
        ItemIsTagged(list[1..], item);
        var a, t, b :| TaggedAt(list[1..], item, v, a, t, b);
        assert list == [list[0]] + a + [t, v] + b;
        assert TaggedAt(list, item, v, [list[0]] + a, t, b);
      }
    }
  }

  /** What a tag is read as, stated on the tokens. */
  lemma ItemIff(list: seq<string>, item: string, v: string)
    ensures GetItem(list, item) == Some(v) <==> Tagged(list, item, v)
  {
    hide Mentions, GetItem;
    ItemIsTagged(list, item);
    if Tagged(list, item, v) {
      var a, t, b :| TaggedAt(list, item, v, a, t, b);
      ItemReads(list, item, v, a, t, b);
    }
  }

  /** Every field of a route, of either kind, is what follows the first token that mentions its tag. */
  lemma RouteReads(ips: IpCodec, s: string, item: string, v: string)
    requires ParseRoute(ips, s).Ok? && Tagged(Tokens(s), item, v)
    ensures var r := ParseRoute(ips, s).value;
      (item == "dev" ==> r.nic == v) && (item == "proto" ==> r.proto == Some(v)) &&
      (item == "src" ==> r.src == ips.parse(v)) && (item == "metric" ==> r.metric == ParseU16(v)) &&
      (item == "scope" && r.ToSubnet? ==> r.scope == Some(v)) &&
      (item == "via" ==> (if r.DefaultRoute? then Some(r.via) else r.gateway) == ips.parse(v))
  {
    hide Mentions, GetItem, Tokens, AnyMentions, Tagged, SplitSlash, ParseU16;
    ItemIff(Tokens(s), item, v);
  }

  /** A field whose tag no token mentions is missing, and without an interface nothing parses. */
  lemma RouteLacks(ips: IpCodec, s: string, item: string)
    requires Quiet(Tokens(s), item)
    ensures item == "dev" ==> ParseRoute(ips, s).Err?
    ensures ParseRoute(ips, s).Ok? ==>
      var r := ParseRoute(ips, s).value;
      (item == "proto" ==> r.proto == None) && (item == "src" ==> r.src == None) &&
      (item == "metric" ==> r.metric == None) && (item == "scope" && r.ToSubnet? ==> r.scope == None) &&
      (item == "via" ==> r.ToSubnet? && r.gateway == None)
  {
    hide Mentions, GetItem, Tokens, AnyMentions, Quiet, SplitSlash, ParseU16;
    QuietFindsNothing(Tokens(s), item);
  }

  /**
   * Which lines parse, and as what: a line is a default route exactly when some token mentions the word,
   * and then needs a gateway that is an address; otherwise its first token is the destination. Both need
   * an interface.
   */
  lemma RouteParsesIff(ips: IpCodec, s: string)
    ensures var list := Tokens(s);
      if list == [] then ParseRoute(ips, s) == Err(EmptyRouteString)
      else if AnyMentions(list, "default") then
        (ParseRoute(ips, s).Ok? <==>
         (exists nic :: Tagged(list, "dev", nic)) && exists via :: Tagged(list, "via", via) && ips.parse(via).Some?) &&
        (ParseRoute(ips, s).Ok? ==> ParseRoute(ips, s).value.DefaultRoute?)
      else
        var (addr, mask) := SplitSlash(list[0]);
        var length := if mask.None? then Some(32) else ParseU16(mask.value);
        (ParseRoute(ips, s).Ok? <==>
         ips.parse(addr).Some? && length.Some? && exists nic :: Tagged(list, "dev", nic)) &&
        (ParseRoute(ips, s).Ok? ==>
         var r := ParseRoute(ips, s).value; r.ToSubnet? && Some(r.dst) == ips.parse(addr) && Some(r.subnet) == length)
  {
    hide Mentions, Tokens, AnyMentions, Tagged, SplitSlash, ParseU16, ParseDefault, ParseSubnet;
    var list := Tokens(s);
    if list != [] {
      DefaultParsesIff(ips, list);
      SubnetParsesIff(ips, list);
    }
  }

  lemma DefaultParsesIff(ips: IpCodec, list: seq<string>)
    ensures var r := ParseDefault(ips, list);
      (r.Ok? <==>
       (exists nic :: Tagged(list, "dev", nic)) && exists via :: Tagged(list, "via", via) && ips.parse(via).Some?) &&
      (r.Ok? ==> r.value.DefaultRoute?)
  {
    hide Mentions, GetItem, Tagged, ParseU16;
    TaggedIff(list, "dev");
    TaggedIff(list, "via");
  }

  lemma SubnetParsesIff(ips: IpCodec, list: seq<string>)
    requires list != []
    ensures var (addr, mask) := SplitSlash(list[0]);
      var length := if mask.None? then Some(32) else ParseU16(mask.value);
      var r := ParseSubnet(ips, list);
      (r.Ok? <==> ips.parse(addr).Some? && length.Some? && exists nic :: Tagged(list, "dev", nic)) &&
      (r.Ok? ==> r.value.ToSubnet? && Some(r.value.dst) == ips.parse(addr) && Some(r.value.subnet) == length)
  {
    hide Mentions, GetItem, Tagged;
    TaggedIff(list, "dev");
    var (addr, mask) := SplitSlash(list[0]);
    if mask.Some? {
      assert ParseU16(mask.value) == ParseU16(SplitSlash(list[0]).1.value);
    }
    hide ParseU16, SplitSlash;
  }

  lemma TaggedIff(list: seq<string>, item: string)
    ensures forall v :: Tagged(list, item, v) <==> GetItem(list, item) == Some(v)
    ensures GetItem(list, item).Some? <==> exists v :: Tagged(list, item, v)
  {
    hide Mentions, GetItem, Tagged;
    forall v ensures Tagged(list, item, v) <==> GetItem(list, item) == Some(v) {
      ItemIff(list, item, v);
    }
    if GetItem(list, item).Some? {
      assert Tagged(list, item, GetItem(list, item).value);
    }
  }

  lemma MetricToken()
    ensures Mentions("metric", "metric") && !Mentions("metric", "src") && IsToken("metric")
  {
    SelfMention("metric");
    LowerOf("metric");
    LacksLetter("metric", "src", 0);
  }

  lemma NumberIsQuiet(n: nat)
    ensures AddressText(Show(n)) && IsToken(Show(n))
  {
    forall i | 0 <= i < |Show(n)| ensures '0' <= Show(n)[i] <= '9' {
      DigitRange(Show(n)[i]);
    }
  }

  lemma DigitRange(c: char)
    requires c in DIGITS
    ensures '0' <= c <= '9'
  {
  }

  /** The tokens of a default route as the kernel lists it. */
  function KernelTokens(ips: IpCodec, via: IpAddr, nic: string, proto: string, metric: nat): seq<string> {
    ["via", ips.show(via), "dev", nic, "proto", proto, "metric", Show(metric)]
  }

  /** A default route as the kernel lists it is read with its protocol and its metric. */
  lemma KernelDefault(ips: IpCodec, via: IpAddr, nic: string, proto: string, metric: nat)
    requires ips.Lawful() && metric < U16 && IsToken(nic) && IsToken(proto)
    requires !Mentions(nic, "proto") && !Mentions(nic, "src") && !Mentions(nic, "metric")
    requires !Mentions(proto, "src") && !Mentions(proto, "metric")
    ensures ParseRoute(ips, "default" + Spaced(KernelTokens(ips, via, nic, proto, metric))) ==
      Ok(DefaultRoute(via, nic, Some(proto), None, Some(metric)))
  {
    hide Mentions, GetItem, Tokens, Spaced, ParseU16, Show, Quiet, IsToken, KernelTokens;
    var rest := KernelTokens(ips, via, nic, proto, metric);
    var s := "default" + Spaced(rest);
    KernelLine(ips, via, nic, proto, metric);
    var list := Tokens(s);
    KernelItems(ips, via, nic, proto, metric);
    ParseShow(metric);
    DefaultToken();
    assert list[0] == "default";
    assert AnyMentions(list, "default");
    LawfulShow(ips);
  }

  lemma KernelLine(ips: IpCodec, via: IpAddr, nic: string, proto: string, metric: nat)
    requires ips.Lawful() && IsToken(nic) && IsToken(proto)
    ensures var rest := KernelTokens(ips, via, nic, proto, metric);
      Tokens("default" + Spaced(rest)) == ["default"] + rest
  {
    hide Tokens, Spaced, Mentions, IsToken, AddressText, Show;
    ShowIsAddress(ips, via);
    NumberIsQuiet(metric);
    LiteralTokens();
    MetricToken();
    DefaultIsToken();
    TokensLine("default", KernelTokens(ips, via, nic, proto, metric));
  }

  lemma DefaultIsToken()
    ensures IsToken("default")
  {
  }

  lemma KernelItems(ips: IpCodec, via: IpAddr, nic: string, proto: string, metric: nat)
    requires ips.Lawful() && IsToken(nic) && IsToken(proto)
    requires !Mentions(nic, "proto") && !Mentions(nic, "src") && !Mentions(nic, "metric")
    requires !Mentions(proto, "src") && !Mentions(proto, "metric")
    ensures var list := ["default"] + KernelTokens(ips, via, nic, proto, metric);
      GetItem(list, "via") == Some(ips.show(via)) && GetItem(list, "dev") == Some(nic) &&
      GetItem(list, "proto") == Some(proto) && GetItem(list, "metric") == Some(Show(metric)) &&
      GetItem(list, "src") == None
  {
    hide Mentions, GetItem, IsToken, AddressText, Show;
    ShowIsAddress(ips, via);
    AddressIsQuiet(ips.show(via));
    NumberIsQuiet(metric);
    AddressIsQuiet(Show(metric));
    DefaultToken();
    ViaToken();
    DevToken();
    ProtoToken();
    MetricToken();
    var v, m := ips.show(via), Show(metric);
    var last := ["metric", m];
    var protos := ["proto", proto] + last;
    var devs := ["dev", nic] + protos;
    var list := ["default", "via", v] + devs;
    assert list == ["default"] + KernelTokens(ips, via, nic, proto, metric);
    assert TaggedAt(list, "via", v, ["default"], "via", devs);
    ItemReads(list, "via", v, ["default"], "via", devs);
    SkipThree("default", "via", v, devs);
    SkipTwo("dev", nic, protos);
    SkipTwo("proto", proto, last);
    SkipTwo("metric", m, []);
    Found("dev", nic, protos);
    Found("proto", proto, last);
    Found("metric", m, []);
    assert last + [] == last;
    NothingFound("src");
  }

  lemma SkipTwo(x: string, y: string, rest: seq<string>)
    ensures forall item :: !Mentions(x, item) && !Mentions(y, item) ==>
      GetItem([x, y] + rest, item) == GetItem(rest, item)
  {
    hide Mentions, GetItem;
    forall item | !Mentions(x, item) && !Mentions(y, item)
      ensures GetItem([x, y] + rest, item) == GetItem(rest, item)
    {
      SkipQuiet([x, y], rest, item);
    }
  }

  lemma SkipThree(x: string, y: string, z: string, rest: seq<string>)
    ensures forall item :: !Mentions(x, item) && !Mentions(y, item) && !Mentions(z, item) ==>
      GetItem([x, y, z] + rest, item) == GetItem(rest, item)
  {
    hide Mentions, GetItem;
    forall item | !Mentions(x, item) && !Mentions(y, item) && !Mentions(z, item)
      ensures GetItem([x, y, z] + rest, item) == GetItem(rest, item)
    {
      SkipQuiet([x, y, z], rest, item);
    }
  }

  lemma Found(t: string, v: string, rest: seq<string>)
    ensures forall item :: Mentions(t, item) ==> GetItem([t, v] + rest, item) == Some(v)
  {
    hide Mentions;
  }

  lemma NothingFound(item: string)
    ensures GetItem([], item) == None
  {
  }
}

/** Request targets put together from their parts, as section 3 of RFC 3986 writes them:
    they are accepted and taken apart into these parts again, but for one case. */
module HttpTargets {
  import opened HttpChars
  import opened HttpMachine
  import opened HttpUrl
  import HttpLengths

  // ---------- Characters ----------

  predicate Letter(c: byte) { 'a' <= c <= 'z' || 'A' <= c <= 'Z' }

  predicate Figure(c: byte) { '0' <= c <= '9' }

  predicate HexFigure(c: byte) { Figure(c) || 'a' <= c <= 'f' || 'A' <= c <= 'F' }

  predicate Unreserved(c: byte) { Letter(c) || Figure(c) || c in "-._~" }

  predicate SubDelimiter(c: byte) { c in "!$&'()*+,;=" }

  predicate UserChar(c: byte) { Unreserved(c) || SubDelimiter(c) || c == ':' || c == '%' }

  predicate NameChar(c: byte) { Letter(c) || Figure(c) || c == '.' || c == '-' }

  predicate AddressChar(c: byte) { HexFigure(c) || c == ':' || c == '.' }

  predicate ZoneChar(c: byte) { Unreserved(c) || c == '%' }

  /** Any visible character that does not end a path. */
  predicate PathChar(c: byte) { '!' <= c <= '~' && c != '?' && c != '#' }

  predicate QueryChar(c: byte) { PathChar(c) || c == '?' }

  predicate Only(s: seq<byte>, kind: byte -> bool) {
    forall k :: 0 <= k < |s| ==> kind(s[k])
  }

  lemma SameClasses(c: byte)
    ensures IsAlpha(c) == Letter(c) && IsNum(c) == Figure(c) && IsHex(c) == HexFigure(c)
    ensures IsUserinfoChar(c) == UserChar(c) && IsHostChar(c) == NameChar(c) && IsZoneChar(c) == ZoneChar(c)
    ensures IsUrlChar(c) == PathChar(c)
  {
  }

  // ---------- Targets ----------

  datatype Option<T> = None | Some(value: T)

  datatype HostPart =
    | Name(name: seq<byte>)
    | Address(address: seq<byte>, zone: Option<seq<byte>>)

  datatype Authority = Authority(user: Option<seq<byte>>, host: HostPart, port: Option<seq<byte>>)

  /** What stands in front of the path. */
  datatype Origin = Origin(schema: seq<byte>, authority: Authority)

  datatype Target = Target(
    origin: Option<Origin>, path: seq<byte>, query: Option<seq<byte>>, fragment: Option<seq<byte>>)

  predicate ValidHost(h: HostPart) {
    match h
    case Name(name) => name != [] && Only(name, NameChar)
    case Address(address, zone) =>
      && address != [] && Only(address, AddressChar)
      && (zone.Some? ==> zone.value != [] && Only(zone.value, ZoneChar))
  }

  predicate ValidAuthority(a: Authority) {
    && (a.user.Some? ==> a.user.value != [] && Only(a.user.value, UserChar))
    && ValidHost(a.host)
    && (a.port.Some? ==> a.port.value != [] && HttpLengths.AllDigits(a.port.value))
  }

  predicate ValidTarget(x: Target) {
    && (x.origin.Some? ==>
          x.origin.value.schema != [] && Only(x.origin.value.schema, Letter) && ValidAuthority(x.origin.value.authority))
    && Only(x.path, PathChar)
    && (x.path == [] ==> x.origin.Some?)
    && (x.path != [] ==> x.path[0] == '/' || (x.path[0] == '*' && x.origin.None?))
    && (x.query.Some? ==> Only(x.query.value, QueryChar))
    && (x.fragment.Some? ==> Only(x.fragment.value, QueryChar))
  }

  function Behind(mark: byte, s: Option<seq<byte>>): seq<byte> {
    if s.Some? then [mark] + s.value else []
  }

  function InFront(s: Option<seq<byte>>, mark: byte): seq<byte> {
    if s.Some? then s.value + [mark] else []
  }

  /** The host as it is reported: an address without its brackets. */
  function HostText(h: HostPart): seq<byte> {
    match h
    case Name(name) => name
    case Address(address, zone) => address + Behind('%', zone)
  }

  function HostWritten(h: HostPart): seq<byte> {
    if h.Name? then h.name else ['['] + HostText(h) + [']']
  }

  function AuthorityText(a: Authority): seq<byte> {
    InFront(a.user, '@') + HostWritten(a.host) + Behind(':', a.port)
  }

  function OriginText(o: Option<Origin>): seq<byte> {
    if o.Some? then o.value.schema + "://" + AuthorityText(o.value.authority) else []
  }

  function TargetText(x: Target): seq<byte> {
    OriginText(x.origin) + x.path + Behind('?', x.query) + Behind('#', x.fragment)
  }

  // ---------- Where the parts are ----------

  /** A part is reported where it stands, and not at all if it is empty. */
  function Put(m: Fields7, f: UrlField, off: nat, part: seq<byte>): Fields7 {
    if part == [] then m else m[f := Slice(off, |part|)]
  }

  function Or(s: Option<seq<byte>>): seq<byte> {
    if s.Some? then s.value else []
  }

  function AuthorityParts(m: Fields7, at: nat, a: Authority): Fields7 {
    var host := at + |InFront(a.user, '@')|;
    var port := host + |HostWritten(a.host)| + 1;
    PutServer(m, at, Or(a.user), if a.host.Name? then host else host + 1, HostText(a.host), port, Or(a.port))
  }

  function PutServer(
    m: Fields7, at: nat, user: seq<byte>, name: nat, host: seq<byte>, port: nat, digits: seq<byte>): Fields7
  {
    Put(Put(Put(m, Userinfo, at, user), Host, name, host), Port, port, digits)
  }

  function OriginParts(o: Option<Origin>): Fields7 {
    if o.Some? then AuthorityParts(Put(map[], Schema, 0, o.value.schema), |o.value.schema| + 3, o.value.authority)
    else map[]
  }

  /** Path, query and fragment, from this offset on. */
  function RestParts(m: Fields7, at: nat, x: Target): Fields7 {
    var query := at + |x.path| + 1;
    var fragment := at + |x.path| + |Behind('?', x.query)| + 1;
    Put(Put(Put(m, Path, at, x.path), Query, query, Or(x.query)), Fragment, fragment, Or(x.fragment))
  }

  function PartsOf(x: Target): Fields7 {
    RestParts(OriginParts(x.origin), |OriginText(x.origin)|, x)
  }

  function PortValue(a: Authority): nat
    requires ValidAuthority(a)
  {
    if a.port.Some? then HttpLengths.Decimal(a.port.value) else 0
  }

  // ---------- The first pass over a stretch ----------

  function Walk(t: Scan, p: nat, bs: seq<byte>): Scan {
    if bs == [] then t else ScanStep(Walk(t, p, bs[..|bs| - 1]), p + |bs| - 1, bs[|bs| - 1])
  }

  lemma {:induction false} WalkAppend(t: Scan, p: nat, a: seq<byte>, b: seq<byte>)
    ensures Walk(t, p, a + b) == Walk(Walk(t, p, a), p + |a|, b)
  {
    hide ScanStep;
    if b == [] {
      assert a + b == a;
    } else {
      var c := b[..|b| - 1];
      WalkAppend(t, p, a, c);
      assert (a + b)[..|a + b| - 1] == a + c;
    }
  }

  lemma WalkNothing(t: Scan, p: nat)
    ensures Walk(t, p, []) == t
  {
  }

  lemma {:induction false} ScanIsWalk(buf: seq<byte>, n: nat, isConnect: bool)
    requires n <= |buf|
    ensures ScanUrl(buf, n, isConnect) == Walk(Start(isConnect), 0, buf[..n])
  {
    hide ScanStep, Start;
    if n > 0 {
      ScanIsWalk(buf, n - 1, isConnect);
      assert buf[..n][..n - 1] == buf[..n - 1];
    }
  }

  /** Bytes that all lead to one state of a field: they become the field, or join it. */
  lemma {:induction false} Stretch(t: Scan, p: nat, bs: seq<byte>, s: State)
    requires bs != [] && InField(s) && ParseUrlChar(t.s, bs[0]) == s && !s.ReqServerWithAt?
    requires forall k :: 0 < k < |bs| ==> ParseUrlChar(s, bs[k]) == s
    ensures Walk(t, p, bs) == Joined(t, p, bs, s)
  {
    hide ParseUrlChar, InField, FieldOf, ScanStep, Joined;
    var n := |bs| - 1;
    if n == 0 {
      assert bs[..0] == [];
      assert Walk(t, p, []) == t;
      JoinFirst(t, p, bs, s);
    } else {
      Stretch(t, p, bs[..n], s);
      JoinNext(t, p, bs, s);
    }
  }

  lemma JoinFirst(t: Scan, p: nat, bs: seq<byte>, s: State)
    requires |bs| == 1 && InField(s) && ParseUrlChar(t.s, bs[0]) == s
    ensures ScanStep(t, p, bs[0]) == Joined(t, p, bs, s)
  {
    hide ParseUrlChar, InField, FieldOf;
  }

  lemma JoinNext(t: Scan, p: nat, bs: seq<byte>, s: State)
    requires |bs| > 1 && InField(s) && ParseUrlChar(s, bs[|bs| - 1]) == s
    ensures ScanStep(Joined(t, p, bs[..|bs| - 1], s), p + |bs| - 1, bs[|bs| - 1]) == Joined(t, p, bs, s)
  {
    hide ParseUrlChar, InField, FieldOf;
  }

  function Joined(t: Scan, p: nat, bs: seq<byte>, s: State): Scan
    requires InField(s)
  {
    var f := FieldOf(s);
    var was := if InField(t.last) && FieldOf(t.last) == f && f in t.fields then t.fields[f] else Slice(p, 0);
    t.(s := s, last := s, foundAt := t.foundAt || s.ReqServerWithAt?, fields := t.fields[f := Slice(was.off, was.len + |bs|)])
  }

  lemma Mark(t: Scan, p: nat, c: byte)
    requires !InField(ParseUrlChar(t.s, c))
    ensures Walk(t, p, [c]) == t.(s := ParseUrlChar(t.s, c))
  {
    hide ParseUrlChar, InField;
    assert [c][..0] == [];
    assert Walk(t, p, []) == t;
  }

  /** A stretch behind another one. */
  lemma Then(t: Scan, p: nat, a: seq<byte>, b: seq<byte>, u: Scan)
    requires Walk(t, p, a) == u
    ensures Walk(t, p, a + b) == Walk(u, p + |a|, b)
  {
    WalkAppend(t, p, a, b);
  }

  // ---------- The first pass over a target ----------

  /** The bytes that may stand in an authority beside '@'. */
  predicate ServerChar(c: byte) { UserChar(c) || c == '[' || c == ']' }

  lemma ServerLeads(s: State, c: byte)
    requires s.ReqServerStart? || s.ReqServer? || s.ReqServerWithAt?
    ensures ServerChar(c) ==> ParseUrlChar(s, c) == ReqServer
    ensures c == '@' && !s.ReqServerWithAt? ==> ParseUrlChar(s, c) == ReqServerWithAt
  {
    SameClasses(c);
  }

  lemma ServerStretch(t: Scan, p: nat, bs: seq<byte>)
    requires t.s.ReqServerStart? || t.s.ReqServer? || t.s.ReqServerWithAt?
    requires bs != [] && Only(bs, ServerChar)
    ensures Walk(t, p, bs) == Joined(t, p, bs, ReqServer)
  {
    hide ParseUrlChar, ServerChar;
    forall k | 0 <= k < |bs| ensures ParseUrlChar(t.s, bs[k]) == ReqServer && ParseUrlChar(ReqServer, bs[k]) == ReqServer {
      ServerLeads(t.s, bs[k]);
      ServerLeads(ReqServer, bs[k]);
    }
    Stretch(t, p, bs, ReqServer);
  }

  lemma AtStep(t: Scan, p: nat)
    requires t.s.ReqServer?
    ensures Walk(t, p, ['@']) == Joined(t, p, ['@'], ReqServerWithAt)
  {
    ServerLeads(t.s, '@');
    assert ['@'][..0] == [];
    assert Walk(t, p, []) == t;
  }

  lemma HostServer(a: Authority)
    requires ValidAuthority(a)
    ensures Only(HostWritten(a.host) + Behind(':', a.port), ServerChar) && HostWritten(a.host) != []
  {
    var d := Or(a.port);
    forall k | 0 <= k < |d| ensures IsNum(d[k]) {
    }
  }

  /** The authority is one field; its '@' is noticed. */
  lemma AuthorityScanned(t: Scan, p: nat, a: Authority)
    requires t.s.ReqServerStart? && ValidAuthority(a) && !(InField(t.last) && FieldOf(t.last) == Host)
    ensures Walk(t, p, AuthorityText(a))
         == t.(s := ReqServer, last := ReqServer, foundAt := t.foundAt || a.user.Some?,
               fields := t.fields[Host := Slice(p, |AuthorityText(a)|)])
  {
    hide Walk, ServerChar;
    var rest := HostWritten(a.host) + Behind(':', a.port);
    HostServer(a);
    if a.user.None? {
      assert AuthorityText(a) == rest;
      ServerStretch(t, p, rest);
    } else {
      var user := a.user.value;
      UserServer(user);
      ServerStretch(t, p, user);
      var u := Joined(t, p, user, ReqServer);
      AtStep(u, p + |user|);
      var v := Joined(u, p + |user|, ['@'], ReqServerWithAt);
      ServerStretch(v, p + |user| + 1, rest);
      Then(t, p, user, ['@'], u);
      Then(t, p, user + ['@'], rest, v);
      assert AuthorityText(a) == user + ['@'] + rest;
    }
  }

  lemma UserServer(s: seq<byte>)
    requires Only(s, UserChar)
    ensures Only(s, ServerChar)
  {
  }

  /** Path, query and fragment; a fragment right behind an authority is refused. */
  lemma RestScanned(t: Scan, p: nat, x: Target)
    requires ValidTarget(x) && BeforeRest(t, x)
    ensures var u := Walk(t, p, x.path + Behind('?', x.query) + Behind('#', x.fragment));
            if BareFragment(x) then u.s == Dead
            else u.s != Dead && u.foundAt == t.foundAt && u.fields == RestParts(t.fields, p, x)
  {
    hide Walk, ValidTarget;
    var u := Walk(t, p, x.path);
    PathScanned(t, p, x);
    Then(t, p, x.path, Behind('?', x.query), u);
    var v := Walk(u, p + |x.path|, Behind('?', x.query));
    QueryScanned(u, p + |x.path|, x);
    Then(t, p, x.path + Behind('?', x.query), Behind('#', x.fragment), v);
    FragmentScanned(v, p + |x.path| + |Behind('?', x.query)|, x);
  }

  /** A fragment right behind the authority. */
  predicate BareFragment(x: Target) {
    x.path == [] && x.query.None? && x.fragment.Some?
  }

  /** Where the scan is in front of the path. */
  predicate BeforeRest(t: Scan, x: Target) {
    && (if x.origin.Some? then t.s.ReqServer? else t.s.ReqSpacesBeforeUrl?)
    && (InField(t.last) ==> FieldOf(t.last) == Host || FieldOf(t.last) == Schema)
    && Path !in t.fields && Query !in t.fields && Fragment !in t.fields
  }

  lemma PathScanned(t: Scan, p: nat, x: Target)
    requires ValidTarget(x) && BeforeRest(t, x)
    ensures var u := Walk(t, p, x.path);
            && u.s == (if x.path == [] then ReqServer else ReqPath) && u.foundAt == t.foundAt
            && u.fields == Put(t.fields, Path, p, x.path)
  {
    if x.path != [] {
      forall k | 0 <= k < |x.path| ensures ParseUrlChar(ReqPath, x.path[k]) == ReqPath {
        SameClasses(x.path[k]);
      }
      Stretch(t, p, x.path, ReqPath);
    }
  }

  lemma QueryScanned(t: Scan, p: nat, x: Target)
    requires ValidTarget(x) && Query !in t.fields && t.s == if x.path == [] then ReqServer else ReqPath
    ensures var u := Walk(t, p, Behind('?', x.query));
            && u.foundAt == t.foundAt && u.fields == Put(t.fields, Query, p + 1, Or(x.query))
            && if x.query.None? then u.s == t.s else u.s.ReqQueryStringStart? || u.s.ReqQueryString?
  {
    if x.query.Some? {
      MarkStretch(t, p, '?', x.query.value, ReqQueryStringStart, ReqQueryString);
    } else {
      assert Walk(t, p, []) == t;
    }
  }

  /** A mark and the field behind it, which may be empty. */
  lemma MarkStretch(t: Scan, p: nat, c: byte, bs: seq<byte>, first: State, s: State)
    requires ParseUrlChar(t.s, c) == first && Only(bs, QueryChar)
    requires (first == ReqQueryStringStart && s == ReqQueryString) || (first == ReqFragmentStart && s == ReqFragment)
    requires FieldOf(s) !in t.fields
    ensures var u := Walk(t, p, [c] + bs);
            && u.foundAt == t.foundAt && u.fields == Put(t.fields, FieldOf(s), p + 1, bs)
            && u.s == if bs == [] then first else s
  {
    hide Walk, ParseUrlChar;
    var u := t.(s := first);
    Mark(t, p, c);
    Then(t, p, [c], bs, u);
    if bs == [] {
      assert [c] + bs == [c];
    } else {
      QueryBytes(bs);
      Stretch(u, p + 1, bs, s);
    }
  }

  lemma QueryBytes(s: seq<byte>)
    requires Only(s, QueryChar)
    ensures forall k :: 0 <= k < |s| ==>
      ParseUrlChar(ReqQueryStringStart, s[k]) == ParseUrlChar(ReqQueryString, s[k]) == ReqQueryString
    ensures forall k :: 0 <= k < |s| ==>
      ParseUrlChar(ReqFragmentStart, s[k]) == ParseUrlChar(ReqFragment, s[k]) == ReqFragment
  {
  }

  lemma FragmentScanned(t: Scan, p: nat, x: Target)
    requires ValidTarget(x) && Fragment !in t.fields
    requires if x.query.None? then t.s == (if x.path == [] then ReqServer else ReqPath)
             else t.s.ReqQueryStringStart? || t.s.ReqQueryString?
    ensures var u := Walk(t, p, Behind('#', x.fragment));
            if BareFragment(x) then u.s == Dead
            else u.s != Dead && u.foundAt == t.foundAt && u.fields == Put(t.fields, Fragment, p + 1, Or(x.fragment))
  {
    hide Walk, ParseUrlChar, QueryChar;
    FragmentLeads(t.s);
    if x.fragment.Some? {
      if BareFragment(x) {
        Mark(t, p, '#');
        Then(t, p, ['#'], x.fragment.value, t.(s := Dead));
        DeadWalk(t.(s := Dead), p + 1, x.fragment.value);
      } else {
        MarkStretch(t, p, '#', x.fragment.value, ReqFragmentStart, ReqFragment);
      }
    } else {
      WalkNothing(t, p);
    }
  }

  lemma FragmentLeads(s: State)
    ensures s.ReqPath? || s.ReqQueryString? || s.ReqQueryStringStart? ==> ParseUrlChar(s, '#') == ReqFragmentStart
    ensures s.ReqServer? ==> ParseUrlChar(s, '#') == Dead
  {
  }

  lemma {:induction false} DeadWalk(t: Scan, p: nat, bs: seq<byte>)
    requires t.s == Dead
    ensures Walk(t, p, bs).s == Dead
  {
    if bs != [] {
      DeadWalk(t, p, bs[..|bs| - 1]);
    }
  }

  /** The scheme and the marks behind it. */
  lemma SchemaScanned(s: seq<byte>)
    requires s != [] && Only(s, Letter)
    ensures Walk(Start(false), 0, s + "://")
         == Scan(ReqServerStart, ReqSchema, false, map[Schema := Slice(0, |s|)])
  {
    hide Walk, ParseUrlChar, Letter;
    SchemaLetters(s);
    Stretch(Start(false), 0, s, ReqSchema);
    var t := Joined(Start(false), 0, s, ReqSchema);
    Marks(t, |s|);
    Then(Start(false), 0, s, "://", t);
  }

  lemma SchemaLetters(s: seq<byte>)
    requires Only(s, Letter)
    ensures forall k :: 0 <= k < |s| ==>
      ParseUrlChar(ReqSpacesBeforeUrl, s[k]) == ParseUrlChar(ReqSchema, s[k]) == ReqSchema
  {
    forall k | 0 <= k < |s|
      ensures ParseUrlChar(ReqSpacesBeforeUrl, s[k]) == ParseUrlChar(ReqSchema, s[k]) == ReqSchema
    {
      SameClasses(s[k]);
    }
  }

  lemma Marks(t: Scan, p: nat)
    requires t.s.ReqSchema?
    ensures Walk(t, p, "://") == t.(s := ReqServerStart)
  {
    hide Walk;
    Mark(t, p, ':');
    Mark(t.(s := ReqSchemaSlash), p + 1, '/');
    Mark(t.(s := ReqSchemaSlashSlash), p + 2, '/');
    Then(t, p, ":", "/", t.(s := ReqSchemaSlash));
    Then(t, p, ":" + "/", "/", t.(s := ReqSchemaSlashSlash));
    assert ":" + "/" + "/" == "://";
  }

  // ---------- The second pass ----------

  function HostWalk(t: HostScan, p: nat, bs: seq<byte>): (r: HostScan)
    requires Host in t.fields
    ensures Host in r.fields
  {
    if bs == [] then t
    else
      var n := |bs| - 1;
      var u := HostWalk(t, p, bs[..n]);
      if u.s.HostDead? then u else HostStep(u, p + n, bs[n])
  }

  lemma {:induction false} HostAppend(t: HostScan, p: nat, a: seq<byte>, b: seq<byte>)
    requires Host in t.fields
    ensures HostWalk(t, p, a + b) == HostWalk(HostWalk(t, p, a), p + |a|, b)
  {
    hide HostStep;
    if b == [] {
      assert a + b == a;
    } else {
      var c := b[..|b| - 1];
      HostAppend(t, p, a, c);
      assert (a + b)[..|a + b| - 1] == a + c;
    }
  }

  lemma HostThen(t: HostScan, p: nat, a: seq<byte>, b: seq<byte>, u: HostScan)
    requires Host in t.fields && HostWalk(t, p, a) == u
    ensures HostWalk(t, p, a + b) == HostWalk(u, p + |a|, b)
  {
    HostAppend(t, p, a, b);
  }

  lemma {:induction false} ScanHostIsWalk(buf: seq<byte>, h: nat, n: nat, start: HostScan)
    requires h <= n <= |buf| && Host in start.fields
    ensures ScanHost(buf, h, n, start) == HostWalk(start, h, buf[h..n])
    decreases n
  {
    hide HostStep;
    if n > h {
      ScanHostIsWalk(buf, h, n - 1, start);
      assert buf[h..n][..n - 1 - h] == buf[h..n - 1];
    }
  }

  /** The fields once n bytes from p on have been taken in this state. */
  function Grown(s: HostState, m: Fields7, p: nat, n: nat): (r: Fields7)
    requires Host in m && (s.InHost? || s.V6? || s.V6Zone? || s.InPort? || s.InUserinfo?)
    ensures Host in r
  {
    if s.InHost? || s.V6? then m[Host := Slice(p, n)]
    else if s.V6Zone? then m[Host := Slice(m[Host].off, m[Host].len + n)]
    else if s.InPort? then m[Port := Slice(p, n)]
    else m[Userinfo := Slice(p, n)]
  }

  lemma {:induction false} HostStretch(t: HostScan, p: nat, bs: seq<byte>, s: HostState)
    requires bs != [] && Host in t.fields && !t.s.HostDead? && t.s != s
    requires s.InHost? || s.V6? || s.V6Zone? || s.InPort? || s.InUserinfo?
    requires s.InHost? || s.V6? ==> t.fields[Host].len == 0
    requires ParseHostChar(t.s, bs[0]) == s && forall k :: 0 < k < |bs| ==> ParseHostChar(s, bs[k]) == s
    ensures HostWalk(t, p, bs) == HostScan(s, Grown(s, t.fields, p, |bs|))
  {
    hide ParseHostChar;
    var n := |bs| - 1;
    if n == 0 {
      assert bs[..0] == [];
      assert HostWalk(t, p, []) == t;
    } else {
      HostStretch(t, p, bs[..n], s);
    }
  }

  /** A byte that no field takes. */
  lemma HostMark(t: HostScan, p: nat, c: byte)
    requires Host in t.fields && !t.s.HostDead?
    requires var s := ParseHostChar(t.s, c);
             !s.InHost? && !s.V6? && !s.V6ZoneStart? && !s.V6Zone? && !s.InPort? && !s.InUserinfo?
    ensures HostWalk(t, p, [c]) == HostScan(ParseHostChar(t.s, c), t.fields)
  {
    hide ParseHostChar;
    assert [c][..0] == [];
    assert HostWalk(t, p, []) == t;
  }

  lemma HostLeads(c: byte)
    ensures UserChar(c) ==> ParseHostChar(UserinfoStart, c) == ParseHostChar(InUserinfo, c) == InUserinfo
    ensures NameChar(c) ==> ParseHostChar(HostStart, c) == ParseHostChar(InHost, c) == InHost
    ensures AddressChar(c) ==> ParseHostChar(V6Start, c) == ParseHostChar(V6, c) == V6
    ensures ZoneChar(c) ==> ParseHostChar(V6ZoneStart, c) == ParseHostChar(V6Zone, c) == V6Zone
    ensures IsNum(c) ==> ParseHostChar(PortStart, c) == ParseHostChar(InPort, c) == InPort
  {
    SameClasses(c);
  }

  lemma AllLead(bs: seq<byte>)
    ensures Only(bs, UserChar) ==> forall k :: 0 <= k < |bs| ==>
              ParseHostChar(UserinfoStart, bs[k]) == ParseHostChar(InUserinfo, bs[k]) == InUserinfo
    ensures Only(bs, NameChar) ==> forall k :: 0 <= k < |bs| ==>
              ParseHostChar(HostStart, bs[k]) == ParseHostChar(InHost, bs[k]) == InHost
    ensures Only(bs, AddressChar) ==> forall k :: 0 <= k < |bs| ==>
              ParseHostChar(V6Start, bs[k]) == ParseHostChar(V6, bs[k]) == V6
    ensures Only(bs, ZoneChar) ==> forall k :: 0 <= k < |bs| ==>
              ParseHostChar(V6ZoneStart, bs[k]) == ParseHostChar(V6Zone, bs[k]) == V6Zone
    ensures HttpLengths.AllDigits(bs) ==> forall k :: 0 <= k < |bs| ==>
              ParseHostChar(PortStart, bs[k]) == ParseHostChar(InPort, bs[k]) == InPort
  {
    hide ParseHostChar, UserChar, NameChar, AddressChar, ZoneChar, IsNum;
    forall k | 0 <= k < |bs| {
      HostLeads(bs[k]);
    }
  }

  lemma UserParsed(t: HostScan, p: nat, user: seq<byte>)
    requires t.s.UserinfoStart? && Host in t.fields && user != [] && Only(user, UserChar)
    ensures HostWalk(t, p, user + ['@']) == HostScan(HostStart, t.fields[Userinfo := Slice(p, |user|)])
  {
    AllLead(user);
    HostStretch(t, p, user, InUserinfo);
    var u := HostScan(InUserinfo, t.fields[Userinfo := Slice(p, |user|)]);
    HostMark(u, p + |user|, '@');
    HostThen(t, p, user, ['@'], u);
  }

  lemma AddressParsed(t: HostScan, p: nat, h: HostPart)
    requires t.s.HostStart? && Host in t.fields && t.fields[Host].len == 0 && ValidHost(h) && h.Address?
    ensures HostWalk(t, p, HostWritten(h)) == HostScan(V6End, t.fields[Host := Slice(p + 1, |HostText(h)|)])
  {
    hide HostWalk, ParseHostChar, Only, AddressChar, ZoneChar;
    BracketLeads();
    HostMark(t, p, '[');
    var u := t.(s := V6Start);
    AllLead(h.address);
    HostStretch(u, p + 1, h.address, V6);
    HostThen(t, p, ['['], h.address, u);
    var v := HostScan(V6, t.fields[Host := Slice(p + 1, |h.address|)]);
    var w := HostWalk(v, p + 1 + |h.address|, Behind('%', h.zone));
    ZoneParsed(v, p + 1 + |h.address|, h);
    HostThen(t, p, ['['] + h.address, Behind('%', h.zone), v);
    HostMark(w, p + 1 + |HostText(h)|, ']');
    HostThen(t, p, ['['] + h.address + Behind('%', h.zone), [']'], w);
    assert HostWritten(h) == ['['] + h.address + Behind('%', h.zone) + [']'];
  }

  lemma BracketLeads()
    ensures ParseHostChar(HostStart, '[') == V6Start
    ensures ParseHostChar(V6, ']') == ParseHostChar(V6Zone, ']') == V6End && ParseHostChar(V6, '%') == V6ZoneStart
    ensures ParseHostChar(V6End, ':') == ParseHostChar(InHost, ':') == PortStart
  {
  }

  lemma ZoneParsed(t: HostScan, p: nat, h: HostPart)
    requires t.s.V6? && Host in t.fields && ValidHost(h) && h.Address?
    ensures var r := HostWalk(t, p, Behind('%', h.zone));
            && (r.s.V6? || r.s.V6Zone?)
            && r.fields == t.fields[Host := Slice(t.fields[Host].off, t.fields[Host].len + |Behind('%', h.zone)|)]
  {
    hide ParseHostChar, Only;
    BracketLeads();
    if h.zone.Some? {
      var z := h.zone.value;
      var u := HostScan(V6ZoneStart, t.fields[Host := Slice(t.fields[Host].off, t.fields[Host].len + 1)]);
      ZoneMark(t, p);
      hide HostWalk;
      AllLead(z);
      HostStretch(u, p + 1, z, V6Zone);
      HostThen(t, p, ['%'], z, u);
    }
  }

  lemma ZoneMark(t: HostScan, p: nat)
    requires t.s.V6? && Host in t.fields
    ensures HostWalk(t, p, ['%'])
         == HostScan(V6ZoneStart, t.fields[Host := Slice(t.fields[Host].off, t.fields[Host].len + 1)])
  {
    assert ['%'][..0] == [];
    assert HostWalk(t, p, []) == t;
  }

  lemma PortParsed(t: HostScan, p: nat, port: Option<seq<byte>>)
    requires (t.s.InHost? || t.s.V6End?) && Host in t.fields
    requires port.Some? ==> port.value != [] && HttpLengths.AllDigits(port.value)
    ensures var r := HostWalk(t, p, Behind(':', port));
            HostMayEnd(r.s) && r.fields == Put(t.fields, Port, p + 1, Or(port))
  {
    if port.None? {
      HostNothing(t, p);
    }
    hide HostWalk, ParseHostChar, HttpLengths.AllDigits;
    if port.Some? {
      BracketLeads();
      HostMark(t, p, ':');
      var u := t.(s := PortStart);
      AllLead(port.value);
      HostStretch(u, p + 1, port.value, InPort);
      HostThen(t, p, [':'], port.value, u);
    }
  }

  /** An authority is taken apart into user, host and port. */
  lemma AuthorityParsed(m: Fields7, p: nat, a: Authority)
    requires ValidAuthority(a) && Host in m && m[Host].len == 0
    ensures var r := HostWalk(HostScan(if a.user.Some? then UserinfoStart else HostStart, m), p, AuthorityText(a));
            HostMayEnd(r.s) && r.fields == AuthorityParts(m, p, a)
  {
    hide HostWalk, ParseHostChar, Only, HttpLengths.AllDigits;
    var t := HostScan(if a.user.Some? then UserinfoStart else HostStart, m);
    var user := InFront(a.user, '@');
    var u := HostScan(HostStart, Put(m, Userinfo, p, Or(a.user)));
    assert HostWalk(t, p, user) == u by {
      if a.user.Some? {
        UserParsed(t, p, a.user.value);
      } else {
        HostNothing(t, p);
      }
    }
    var q := p + |user|;
    var v := HostScan(if a.host.Name? then InHost else V6End,
                      u.fields[Host := Slice(if a.host.Name? then q else q + 1, |HostText(a.host)|)]);
    assert HostWalk(u, q, HostWritten(a.host)) == v by {
      if a.host.Name? {
        AllLead(a.host.name);
        HostStretch(u, q, a.host.name, InHost);
      } else {
        AddressParsed(u, q, a.host);
      }
    }
    HostThen(t, p, user, HostWritten(a.host), u);
    PortParsed(v, q + |HostWritten(a.host)|, a.port);
    HostThen(t, p, user + HostWritten(a.host), Behind(':', a.port), v);
  }

  lemma HostNothing(t: HostScan, p: nat)
    requires Host in t.fields
    ensures HostWalk(t, p, []) == t
  {
  }

  // ---------- The whole ----------

  /** What a target is taken apart into: nothing if it is refused. */
  function Expected(x: Target): seq<Parts>
    requires ValidTarget(x)
  {
    var port := if x.origin.Some? then PortValue(x.origin.value.authority) else 0;
    if BareFragment(x) || port > 65535 then [] else [Parts(PartsOf(x), port)]
  }

  /** What the first pass makes of scheme and authority. */
  function ScannedOrigin(o: Option<Origin>): Fields7 {
    if o.None? then map[]
    else
      var x := o.value;
      map[Schema := Slice(0, |x.schema|), Host := Slice(|x.schema| + 3, |AuthorityText(x.authority)|)]
  }

  /** The first pass over scheme and authority. */
  lemma OriginScanned(o: Origin)
    requires o.schema != [] && Only(o.schema, Letter) && ValidAuthority(o.authority)
    ensures Walk(Start(false), 0, OriginText(Some(o)))
         == Scan(ReqServer, ReqServer, o.authority.user.Some?, ScannedOrigin(Some(o)))
  {
    hide Walk, ParseUrlChar;
    SchemaScanned(o.schema);
    var t := Scan(ReqServerStart, ReqSchema, false, map[Schema := Slice(0, |o.schema|)]);
    AuthorityScanned(t, |o.schema| + 3, o.authority);
    Then(Start(false), 0, o.schema + "://", AuthorityText(o.authority), t);
  }

  /** The second pass over an authority that stands at h. */
  lemma HostParsed(buf: seq<byte>, h: nat, fields: Fields7, a: Authority)
    requires ValidAuthority(a) && h + |AuthorityText(a)| <= |buf| && buf[h..h + |AuthorityText(a)|] == AuthorityText(a)
    requires Host in fields && fields[Host] == Slice(h, |AuthorityText(a)|)
    ensures ParseHost(buf, fields, a.user.Some?) == [AuthorityParts(fields[Host := Slice(h, 0)], h, a)]
  {
    hide ScanHost, HostWalk, AuthorityParts;
    var e := h + |AuthorityText(a)|;
    var start := HostScan(if a.user.Some? then UserinfoStart else HostStart, fields[Host := Slice(h, 0)]);
    ScanHostIsWalk(buf, h, e, start);
    AuthorityParsed(start.fields, h, a);
  }

  /** The port's digits stand where the parts say. */
  lemma PortThere(buf: seq<byte>, h: nat, m: Fields7, a: Authority, fields: Fields7)
    requires ValidAuthority(a) && h + |AuthorityText(a)| <= |buf| && buf[h..h + |AuthorityText(a)|] == AuthorityText(a)
    requires Port !in m && (Port in fields <==> Port in AuthorityParts(m, h, a))
    requires Port in fields ==> fields[Port] == AuthorityParts(m, h, a)[Port]
    ensures PortOf(buf, false, fields) == PortOf(buf, true, fields)
         == if PortValue(a) > 65535 then [] else [Parts(fields, PortValue(a))]
  {
    hide HttpLengths.AllDigits, ValidHost;
    if a.port.Some? {
      var p := fields[Port];
      assert p == Slice(h + |AuthorityText(a)| - |a.port.value|, |a.port.value|);
      assert buf[p.off..p.End()] == AuthorityText(a)[p.off - h..p.End() - h];
      assert AuthorityText(a)[|AuthorityText(a)| - |a.port.value|..] == a.port.value;
    }
  }

  lemma TargetScanned(x: Target)
    requires ValidTarget(x)
    ensures var t := ScanUrl(TargetText(x), |TargetText(x)|, false);
            if BareFragment(x) then t.s == Dead
            else
              && t.s != Dead && t.foundAt == (x.origin.Some? && x.origin.value.authority.user.Some?)
              && t.fields == RestParts(ScannedOrigin(x.origin), |OriginText(x.origin)|, x)
  {
    hide ScanUrl, Walk, RestParts, AuthorityText, ValidAuthority, ParseUrlChar;
    var buf := TargetText(x);
    var rest := x.path + Behind('?', x.query) + Behind('#', x.fragment);
    var t := Walk(Start(false), 0, OriginText(x.origin));
    assert buf == OriginText(x.origin) + rest && buf[..|buf|] == buf;
    ScanIsWalk(buf, |buf|, false);
    Then(Start(false), 0, OriginText(x.origin), rest, t);
    if x.origin.None? {
      WalkNothing(Start(false), 0);
    } else {
      OriginScanned(x.origin.value);
    }
    RestScanned(t, |OriginText(x.origin)|, x);
  }

  lemma PlainParsed(x: Target)
    requires ValidTarget(x) && x.origin.None?
    ensures ParseUrl(TargetText(x), false) == Expected(x)
  {
    hide ScanUrl;
    TargetScanned(x);
  }

  lemma RestKeeps(m: Fields7, p: nat, x: Target, f: UrlField)
    requires !f.Path? && !f.Query? && !f.Fragment?
    ensures (f in RestParts(m, p, x) <==> f in m) && (f in m ==> RestParts(m, p, x)[f] == m[f])
  {
  }

  /** The second pass changes nothing behind the authority. */
  lemma PartsCommute(o: Origin, x: Target, h: nat, p: nat)
    requires o.schema != [] && HostText(o.authority.host) != []
    ensures var m := RestParts(ScannedOrigin(Some(o)), p, x)[Host := Slice(h, 0)];
            (AuthorityParts(m, h, o.authority)
             == RestParts(AuthorityParts(Put(map[], Schema, 0, o.schema), h, o.authority), p, x))
  {
    hide *;
    var a, m := o.authority, ScannedOrigin(Some(o))[Host := Slice(h, 0)];
    RestUpdate(ScannedOrigin(Some(o)), p, x, Host, Slice(h, 0));
    RestAuthority(m, p, x, h, a);
    HostOver(o, h);
  }

  /** The mark of an empty host makes no difference. */
  lemma HostOver(o: Origin, h: nat)
    requires o.schema != [] && HostText(o.authority.host) != []
    ensures AuthorityParts(ScannedOrigin(Some(o))[Host := Slice(h, 0)], h, o.authority)
         == AuthorityParts(Put(map[], Schema, 0, o.schema), h, o.authority)
  {
    hide AuthorityText, HostText, HostWritten, InFront, Or;
  }

  lemma RestAuthority(m: Fields7, p: nat, x: Target, h: nat, a: Authority)
    ensures AuthorityParts(RestParts(m, p, x), h, a) == RestParts(AuthorityParts(m, h, a), p, x)
  {
    hide *;
    ServerParts(m, h, a);
    ServerParts(RestParts(m, p, x), h, a);
    var host := h + |InFront(a.user, '@')|;
    var name := if a.host.Name? then host else host + 1;
    RestServer(m, p, x, h, Or(a.user), name, HostText(a.host), host + |HostWritten(a.host)| + 1, Or(a.port));
  }

  lemma ServerParts(m: Fields7, h: nat, a: Authority)
    ensures var host := h + |InFront(a.user, '@')|;
            var name := if a.host.Name? then host else host + 1;
            AuthorityParts(m, h, a) == PutServer(m, h, Or(a.user), name, HostText(a.host),
                                                 host + |HostWritten(a.host)| + 1, Or(a.port))
  {
  }

  lemma RestServer(
    m: Fields7, p: nat, x: Target,
    at: nat, user: seq<byte>, name: nat, host: seq<byte>, port: nat, digits: seq<byte>)
    ensures PutServer(RestParts(m, p, x), at, user, name, host, port, digits)
         == RestParts(PutServer(m, at, user, name, host, port, digits), p, x)
  {
    hide Put, RestParts;
    RestPut(m, p, x, Userinfo, at, user);
    RestPut(Put(m, Userinfo, at, user), p, x, Host, name, host);
    RestPut(Put(Put(m, Userinfo, at, user), Host, name, host), p, x, Port, port, digits);
  }

  lemma RestUpdate(m: Fields7, p: nat, x: Target, f: UrlField, v: Slice)
    requires !f.Path? && !f.Query? && !f.Fragment?
    ensures RestParts(m, p, x)[f := v] == RestParts(m[f := v], p, x)
  {
  }

  lemma RestPut(m: Fields7, p: nat, x: Target, f: UrlField, off: nat, part: seq<byte>)
    requires !f.Path? && !f.Query? && !f.Fragment?
    ensures Put(RestParts(m, p, x), f, off, part) == RestParts(Put(m, f, off, part), p, x)
  {
    hide RestParts;
    RestUpdate(m, p, x, f, Slice(off, |part|));
  }

  lemma OriginParsed(x: Target)
    requires ValidTarget(x) && x.origin.Some?
    ensures ParseUrl(TargetText(x), false) == Expected(x)
  {
    hide ScanUrl, ParseHost, PortOf, RestParts, AuthorityParts, AuthorityText, ValidAuthority, HostText;
    TargetScanned(x);
    if !BareFragment(x) {
      var buf, o := TargetText(x), x.origin.value;
      var a, h, p := o.authority, |o.schema| + 3, |OriginText(x.origin)|;
      var fields := RestParts(ScannedOrigin(x.origin), p, x);
      var m := fields[Host := Slice(h, 0)];
      RestKeeps(ScannedOrigin(x.origin), p, x, Host);
      RestKeeps(ScannedOrigin(x.origin), p, x, Port);
      assert buf[h..h + |AuthorityText(a)|] == AuthorityText(a);
      HostParsed(buf, h, fields, a);
      HostSome(a);
      PartsCommute(o, x, h, p);
      PortThere(buf, h, m, a, AuthorityParts(m, h, a));
    }
  }

  lemma HostSome(a: Authority)
    requires ValidAuthority(a)
    ensures HostText(a.host) != []
  {
  }

  /** A target put together from its parts is taken apart into them again, unless its
      port is too large or its fragment stands right behind the authority. */
  lemma TargetParsed(x: Target)
    requires ValidTarget(x)
    ensures ParseUrl(TargetText(x), false) == Expected(x)
  {
    hide ParseUrl, Expected;
    if x.origin.None? {
      PlainParsed(x);
    } else {
      OriginParsed(x);
    }
  }

  /** The target of CONNECT: host and port, and nothing else. */
  lemma ConnectParsed(a: Authority)
    requires ValidAuthority(a)
    ensures ParseUrl(AuthorityText(a), true)
         == if a.user.None? && a.port.Some? && PortValue(a) <= 65535
            then [Parts(AuthorityParts(map[], 0, a), PortValue(a))] else []
  {
    hide ScanUrl, ParseHost, PortOf, AuthorityParts, ValidAuthority, HostText, Walk, ParseUrlChar;
    var buf := AuthorityText(a);
    var m: Fields7 := map[Host := Slice(0, 0)];
    ScanIsWalk(buf, |buf|, true);
    assert buf[..|buf|] == buf && buf[0..|buf|] == buf;
    AuthorityScanned(Start(true), 0, a);
    HostParsed(buf, 0, map[Host := Slice(0, |buf|)], a);
    assert map[Host := Slice(0, |buf|)][Host := Slice(0, 0)] == m;
    ConnectKeys(a);
    PortThere(buf, 0, m, a, AuthorityParts(m, 0, a));
  }

  lemma ConnectKeys(a: Authority)
    requires ValidAuthority(a)
    ensures var r := AuthorityParts(map[Host := Slice(0, 0)], 0, a);
            && r == AuthorityParts(map[], 0, a) && AuthorityText(a) != []
            && (r.Keys == {Host, Port} <==> a.user.None? && a.port.Some?)
  {
    HostSome(a);
    var r := AuthorityParts(map[Host := Slice(0, 0)], 0, a);
    assert (Userinfo in r <==> a.user.Some?) && (Port in r <==> a.port.Some?) && Host in r;
  }

  /** http://a#b is refused. */
  lemma FragmentBehindHost()
    ensures ParseUrl("http://a#b", false) == []
  {
    hide ParseUrl;
    var x := Target(Some(Origin("http", Authority(None, Name("a"), None))), [], None, Some("b"));
    TargetParsed(x);
    assert TargetText(x) == "http://a#b";
  }
}

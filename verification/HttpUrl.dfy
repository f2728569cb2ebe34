/** The decomposition of a request target into its parts. */
module HttpUrl {
  import opened HttpChars
  import opened HttpMachine
  import HttpLengths

  datatype UrlField = Schema | Host | Port | Path | Query | Fragment | Userinfo

  datatype Slice = Slice(off: nat, len: nat) {
    function End(): nat { off + len }
  }

  /** The fields that are set. */
  type Fields7 = map<UrlField, Slice>

  type Bytes = seq<byte>

  // ---------- The first pass: one field per kind of state ----------

  /** The field that a state's bytes belong to, if any: delimiters have none. */
  predicate IsDelimiter(s: State) {
    s.ReqSchemaSlash? || s.ReqSchemaSlashSlash? || s.ReqServerStart? || s.ReqQueryStringStart? || s.ReqFragmentStart?
  }

  predicate InField(s: State) {
    s.ReqSchema? || s.ReqServerWithAt? || s.ReqServer? || s.ReqPath? || s.ReqQueryString? || s.ReqFragment?
  }

  function FieldOf(s: State): UrlField
    requires InField(s)
  {
    if s.ReqSchema? then Schema else if s.ReqPath? then Path else if s.ReqQueryString? then Query
    else if s.ReqFragment? then Fragment else Host
  }

  /** The state, the last field met (by its state), whether an '@' was met, and
      the fields; the state is Dead after an error. */
  datatype Scan = Scan(s: State, last: State, foundAt: bool, fields: Fields7)

  function Start(isConnect: bool): Scan {
    Scan(if isConnect then ReqServerStart else ReqSpacesBeforeUrl, Dead, false, map[])
  }

  function ScanStep(t: Scan, p: nat, ch: byte): Scan {
    var s := ParseUrlChar(t.s, ch);
    if !InField(s) then t.(s := s)
    else
      var uf := FieldOf(s);
      var u := t.(s := s, last := s, foundAt := t.foundAt || s.ReqServerWithAt?);
      if InField(t.last) && FieldOf(t.last) == uf && uf in t.fields then
        u.(fields := t.fields[uf := Slice(t.fields[uf].off, t.fields[uf].len + 1)])
      else u.(fields := t.fields[uf := Slice(p, 1)])
  }

  function ScanUrl(buf: Bytes, n: nat, isConnect: bool): Scan
    requires n <= |buf|
  {
    if n == 0 then Start(isConnect) else ScanStep(ScanUrl(buf, n - 1, isConnect), n - 1, buf[n - 1])
  }

  /** The order of the parts; delimiters stand in front of what they announce. */
  function Level(s: State): nat {
    if s.ReqSchema? then 1 else if s.ReqSchemaSlash? || s.ReqSchemaSlashSlash? then 2
    else if s.ReqServerStart? || s.ReqServer? || s.ReqServerWithAt? then 3
    else if s.ReqPath? then 4
    else if s.ReqQueryStringStart? || s.ReqQueryString? then 5
    else if s.ReqFragmentStart? || s.ReqFragment? then 6 else 0
  }

  function FieldLevel(f: UrlField): nat {
    match f
    case Schema => 1
    case Userinfo => 2
    case Host => 3
    case Port => 3
    case Path => 4
    case Query => 5
    case Fragment => 6
  }

  /** What may stand right behind a field. */
  predicate Closes(f: UrlField, c: byte) {
    match f
    case Schema => c == ':'
    case Host => c == '/' || c == '?'
    case Path => c == '?' || c == '#'
    case Query => c == '#'
    case _ => false
  }

  /** What a field must start with, or have in front of it. */
  predicate Opens(buf: Bytes, f: UrlField, off: nat)
    requires off < |buf|
  {
    match f
    case Schema => off == 0
    case Path => buf[off] == '/' || buf[off] == '*'
    case Query => off > 0 && buf[off - 1] == '?'
    case Fragment => off > 0 && buf[off - 1] == '#'
    case _ => true
  }

  ghost predicate FieldPlaced(buf: Bytes, n: nat, t: Scan, f: UrlField)
    requires n <= |buf| && f in t.fields
  {
    var a := t.fields[f];
    && !f.Port? && !f.Userinfo? && 0 < a.len && a.End() <= n && Opens(buf, f, a.off)
    && (if InField(t.s) then FieldLevel(f) <= Level(t.s) else FieldLevel(f) < Level(t.s))
    && (if a.End() < n then Closes(f, buf[a.End()]) else InField(t.s) && f == FieldOf(t.s))
  }

  /** After n bytes: every field is a non-empty run inside them, opened and closed
      as it should be; fields do not overlap and stand in the order of their
      levels, none of them above the state's. */
  ghost predicate Placed(buf: Bytes, n: nat, t: Scan)
    requires n <= |buf|
  {
    && (InField(t.s) ==> t.last == t.s && FieldOf(t.s) in t.fields && t.fields[FieldOf(t.s)].End() == n)
    && (t.s.ReqQueryStringStart? ==> n > 0 && buf[n - 1] == '?')
    && (t.s.ReqFragmentStart? ==> n > 0 && buf[n - 1] == '#')
    && (t.s.ReqSpacesBeforeUrl? ==> n == 0)
    && (forall f :: f in t.fields ==> FieldPlaced(buf, n, t, f))
    && (forall f, g :: f in t.fields && g in t.fields && FieldLevel(f) < FieldLevel(g) ==>
          t.fields[f].End() <= t.fields[g].off)
  }

  /** The state graph goes up the levels; fields are left and entered through the
      bytes that close and open them. */
  lemma Transition(s: State, ch: byte)
    requires ParseUrlChar(s, ch) != Dead
    ensures var s' := ParseUrlChar(s, ch);
            && (InField(s') || IsDelimiter(s')) && !(InField(s') && IsDelimiter(s'))
            && Level(s) <= Level(s')
            && (InField(s) && !(InField(s') && FieldOf(s') == FieldOf(s)) ==>
                  Closes(FieldOf(s), ch) && Level(s) < Level(s'))
            && (s'.ReqQueryStringStart? ==> ch == '?') && (s'.ReqFragmentStart? ==> ch == '#')
            && (InField(s') && !(InField(s) && FieldOf(s') == FieldOf(s)) ==>
                  match FieldOf(s')
                  case Schema => s.ReqSpacesBeforeUrl?
                  case Path => ch == '/' || ch == '*'
                  case Query => s.ReqQueryStringStart?
                  case Fragment => s.ReqFragmentStart?
                  case _ => true)
  {
  }

  lemma LevelOfField(s: State)
    requires InField(s)
    ensures FieldLevel(FieldOf(s)) == Level(s) && !FieldOf(s).Port? && !FieldOf(s).Userinfo?
    ensures !s.ReqQueryStringStart? && !s.ReqFragmentStart? && !s.ReqSpacesBeforeUrl?
  {
  }

  /** A field's place after a byte that does not belong to it. */
  lemma FieldStays(buf: Bytes, n: nat, t: Scan, u: Scan, f: UrlField)
    requires n < |buf| && f in t.fields && FieldPlaced(buf, n, t, f) && f in u.fields && u.fields[f] == t.fields[f]
    requires u.s == ParseUrlChar(t.s, buf[n]) != Dead
    requires !(InField(t.s) && InField(u.s) && FieldOf(u.s) == FieldOf(t.s) == f)
    ensures FieldPlaced(buf, n + 1, u, f)
    ensures InField(u.s) ==> FieldLevel(f) < Level(u.s) || !InField(t.s) || FieldOf(u.s) == FieldOf(t.s)
  {
    hide ParseUrlChar, Closes, Opens, FieldLevel, Level, InField, FieldOf, IsDelimiter;
    Transition(t.s, buf[n]);
  }

  lemma DelimiterPlaced(buf: Bytes, n: nat, t: Scan)
    requires n < |buf| && Placed(buf, n, t)
    requires var s := ParseUrlChar(t.s, buf[n]); s != Dead && !InField(s)
    ensures Placed(buf, n + 1, t.(s := ParseUrlChar(t.s, buf[n])))
  {
    hide ParseUrlChar, Closes, Opens, FieldLevel, Level, FieldOf, FieldPlaced;
    Transition(t.s, buf[n]);
    var u := t.(s := ParseUrlChar(t.s, buf[n]));
    forall f | f in u.fields ensures FieldPlaced(buf, n + 1, u, f) {
      FieldStays(buf, n, t, u, f);
    }
  }

  lemma ExtendPlaced(buf: Bytes, n: nat, t: Scan)
    requires n < |buf| && Placed(buf, n, t)
    requires var s := ParseUrlChar(t.s, buf[n]); InField(s) && InField(t.s) && FieldOf(t.s) == FieldOf(s)
    ensures Placed(buf, n + 1, ScanStep(t, n, buf[n]))
  {
    Transition(t.s, buf[n]);
    var u := ScanStep(t, n, buf[n]);
    hide ParseUrlChar, Closes, Opens, FieldLevel, Level, InField, FieldOf;
    LevelOfField(u.s);
    LevelOfField(t.s);
    forall f | f in u.fields ensures FieldPlaced(buf, n + 1, u, f) {
      if f != FieldOf(u.s) {
        FieldStays(buf, n, t, u, f);
      }
    }
  }

  lemma EnterPlaced(buf: Bytes, n: nat, t: Scan)
    requires n < |buf| && Placed(buf, n, t)
    requires var s := ParseUrlChar(t.s, buf[n]); InField(s) && !(InField(t.s) && FieldOf(t.s) == FieldOf(s))
    ensures Placed(buf, n + 1, ScanStep(t, n, buf[n]))
  {
    Transition(t.s, buf[n]);
    var u := ScanStep(t, n, buf[n]);
    LevelOfField(u.s);
    EnterOpens(buf, n, t);
    hide ParseUrlChar, Closes, Opens, FieldLevel, Level, InField, FieldOf;
    assert FieldOf(u.s) !in t.fields;
    forall f | f in u.fields ensures FieldPlaced(buf, n + 1, u, f) {
      if f != FieldOf(u.s) {
        FieldStays(buf, n, t, u, f);
      }
    }
  }

  lemma EnterOpens(buf: Bytes, n: nat, t: Scan)
    requires n < |buf| && Placed(buf, n, t)
    requires var s := ParseUrlChar(t.s, buf[n]); InField(s) && !(InField(t.s) && FieldOf(t.s) == FieldOf(s))
    ensures Opens(buf, FieldOf(ParseUrlChar(t.s, buf[n])), n)
  {
    hide ParseUrlChar, Closes, FieldPlaced;
    Transition(t.s, buf[n]);
  }

  lemma StepPlaced(buf: Bytes, n: nat, t: Scan)
    requires n < |buf| && Placed(buf, n, t) && ScanStep(t, n, buf[n]).s != Dead
    ensures Placed(buf, n + 1, ScanStep(t, n, buf[n]))
  {
    hide ParseUrlChar, InField, FieldOf, Placed;
    var s := ParseUrlChar(t.s, buf[n]);
    if !InField(s) {
      DelimiterPlaced(buf, n, t);
    } else if InField(t.s) && FieldOf(t.s) == FieldOf(s) {
      ExtendPlaced(buf, n, t);
    } else {
      EnterPlaced(buf, n, t);
    }
  }

  lemma {:induction false} ScanPlaced(buf: Bytes, n: nat, isConnect: bool)
    requires n <= |buf|
    ensures ScanUrl(buf, n, isConnect).s != Dead ==> Placed(buf, n, ScanUrl(buf, n, isConnect))
  {
    hide Placed, ScanStep;
    if n == 0 {
      StartPlaced(buf, isConnect);
    } else {
      ScanPlaced(buf, n - 1, isConnect);
      DeadStays(ScanUrl(buf, n - 1, isConnect), n - 1, buf[n - 1]);
      if ScanUrl(buf, n, isConnect).s != Dead {
        StepPlaced(buf, n - 1, ScanUrl(buf, n - 1, isConnect));
      }
    }
  }

  lemma StartPlaced(buf: Bytes, isConnect: bool)
    ensures Placed(buf, 0, Start(isConnect))
  {
  }

  lemma DeadStays(t: Scan, p: nat, ch: byte)
    ensures t.s == Dead ==> ScanStep(t, p, ch).s == Dead
  {
  }

  // ---------- The second pass: user, host and port ----------

  datatype HostState =
    | HostDead | UserinfoStart | InUserinfo | HostStart | V6Start | InHost | V6 | V6End | V6ZoneStart | V6Zone
    | PortStart | InPort

  predicate IsHostChar(c: byte) { IsAlphaNum(c) || c == '.' || c == '-' }

  predicate IsZoneChar(c: byte) {
    IsAlphaNum(c) || c == '%' || c == '.' || c == '-' || c == '_' || c == '~'
  }

  /** http_parse_host_char. */
  function ParseHostChar(s: HostState, ch: byte): HostState {
    match s
    case UserinfoStart => if ch == '@' then HostStart else if IsUserinfoChar(ch) then InUserinfo else HostDead
    case InUserinfo => if ch == '@' then HostStart else if IsUserinfoChar(ch) then InUserinfo else HostDead
    case HostStart => if ch == '[' then V6Start else if IsHostChar(ch) then InHost else HostDead
    case InHost => if IsHostChar(ch) then InHost else if ch == ':' then PortStart else HostDead
    case V6End => if ch == ':' then PortStart else HostDead
    case V6 =>
      if ch == ']' then V6End else if IsHex(ch) || ch == ':' || ch == '.' then V6
      else if ch == '%' then V6ZoneStart else HostDead
    case V6Start => if IsHex(ch) || ch == ':' || ch == '.' then V6 else HostDead
    case V6Zone => if ch == ']' then V6End else if IsZoneChar(ch) then V6Zone else HostDead
    case V6ZoneStart => if IsZoneChar(ch) then V6Zone else HostDead
    case InPort => if IsNum(ch) then InPort else HostDead
    case PortStart => if IsNum(ch) then InPort else HostDead
    case HostDead => HostDead
  }

  datatype HostScan = HostScan(s: HostState, fields: Fields7)

  /** A field that starts here, unless the state is still the same, and has one
      more byte. */
  function Longer(fields: Fields7, f: UrlField, p: nat, same: bool): Fields7 {
    fields[f := if same && f in fields then Slice(fields[f].off, fields[f].len + 1) else Slice(p, 1)]
  }

  function HostStep(t: HostScan, p: nat, ch: byte): HostScan
    requires Host in t.fields
  {
    var s := ParseHostChar(t.s, ch);
    var host := t.fields[Host];
    var fields :=
      if s.InHost? || s.V6? then t.fields[Host := Slice(if s != t.s then p else host.off, host.len + 1)]
      else if s.V6ZoneStart? || s.V6Zone? then t.fields[Host := Slice(host.off, host.len + 1)]
      else if s.InPort? then Longer(t.fields, Port, p, t.s.InPort?)
      else if s.InUserinfo? then Longer(t.fields, Userinfo, p, t.s.InUserinfo?)
      else t.fields;
    HostScan(s, fields)
  }

  function ScanHost(buf: Bytes, h: nat, n: nat, start: HostScan): (t: HostScan)
    requires h <= n <= |buf| && Host in start.fields
    ensures Host in t.fields
    decreases n
  {
    if n == h then start
    else
      var t := ScanHost(buf, h, n - 1, start);
      if t.s.HostDead? then t else HostStep(t, n - 1, buf[n - 1])
  }

  predicate HostMayEnd(s: HostState) {
    s.InHost? || s.V6End? || s.InPort?
  }

  /** Where user, host and port are after the bytes from h to n. */
  ghost predicate HostPlaced(buf: Bytes, h: nat, n: nat, before: Fields7, t: HostScan)
    requires h <= n <= |buf|
  {
    && Host in t.fields && t.fields.Keys <= before.Keys + {Host, Port, Userinfo}
    && (forall f :: f in before && f != Host ==> f in t.fields && t.fields[f] == before[f])
    && var host := t.fields[Host];
    && (Userinfo in t.fields ==>
          var u := t.fields[Userinfo];
          && u.off == h && 0 < u.len && u.End() <= n
          && (if t.s.InUserinfo? then u.End() == n else u.End() < n && buf[u.End()] == '@')
          && (host.len > 0 ==> u.End() < host.off))
    && (host.len > 0 ==> h <= host.off && host.End() <= n)
    && (Port in t.fields <==> t.s.InPort?)
    && match t.s
       case UserinfoStart => n == h && host.len == 0
       case InUserinfo => host.len == 0 && Userinfo in t.fields
       case HostStart => host.len == 0
       case V6Start => host.len == 0
       case InHost => host.len > 0 && host.End() == n
       case V6 => host.len > 0 && host.End() == n
       case V6ZoneStart => host.len > 0 && host.End() == n
       case V6Zone => host.len > 0 && host.End() == n
       case V6End => host.len > 0 && host.End() < n
       case PortStart => host.len > 0 && host.End() < n && buf[n - 1] == ':'
       case InPort =>
         var p := t.fields[Port];
         && host.len > 0 && host.End() < p.off && 0 < p.len && p.End() == n && buf[p.off - 1] == ':'
         && forall k :: p.off <= k < n ==> IsNum(buf[k])
       case HostDead => true
  }

  lemma HostStepPlaced(buf: Bytes, h: nat, n: nat, before: Fields7, t: HostScan)
    requires h <= n < |buf| && HostPlaced(buf, h, n, before, t) && !t.s.HostDead?
    requires Port !in before && Userinfo !in before
    ensures HostPlaced(buf, h, n + 1, before, HostStep(t, n, buf[n])) || HostStep(t, n, buf[n]).s.HostDead?
  {
    hide IsUserinfoChar, IsHostChar, IsZoneChar, IsHex, IsNum;
  }

  lemma {:induction false} HostPlacedAfter(buf: Bytes, h: nat, n: nat, start: HostScan)
    requires h <= n <= |buf| && Host in start.fields && start.fields[Host].len == 0
    requires Port !in start.fields && Userinfo !in start.fields
    requires start.s.UserinfoStart? || start.s.HostStart?
    ensures var t := ScanHost(buf, h, n, start);
            t.s.HostDead? || HostPlaced(buf, h, n, start.fields, t)
    decreases n
  {
    hide HostStep;
    if n > h {
      HostPlacedAfter(buf, h, n - 1, start);
      var t := ScanHost(buf, h, n - 1, start);
      if !t.s.HostDead? {
        HostStepPlaced(buf, h, n - 1, start.fields, t);
      }
    }
  }

  // ---------- The whole ----------

  datatype Parts = Parts(fields: Fields7, port: nat)

  /** http_parse_host, on the fields of the first pass; no value means failure. */
  function ParseHost(buf: Bytes, fields: Fields7, foundAt: bool): (r: seq<Fields7>)
    requires Host in fields && fields[Host].End() <= |buf|
    ensures |r| <= 1
  {
    var host := fields[Host];
    var start := HostScan(if foundAt then UserinfoStart else HostStart, fields[Host := Slice(host.off, 0)]);
    var t := ScanHost(buf, host.off, host.End(), start);
    if HostMayEnd(t.s) then [t.fields] else []
  }

  /** The parts of a target, in their order. */
  function Order(f: UrlField): nat {
    match f
    case Schema => 0
    case Userinfo => 1
    case Host => 2
    case Port => 3
    case Path => 4
    case Query => 5
    case Fragment => 6
  }

  /** Every part is a non-empty slice; parts stand in order and do not overlap;
      what opens and closes them is what should. */
  ghost predicate Decomposed(buf: Bytes, fields: Fields7) {
    && (forall f :: f in fields ==> 0 < fields[f].len && fields[f].End() <= |buf|)
    && (forall f, g :: f in fields && g in fields && Order(f) < Order(g) ==> fields[f].End() <= fields[g].off)
    && (Schema in fields ==> Host in fields)
    && (forall f :: f in fields && (f.Schema? || f.Path? || f.Query? || f.Fragment?) ==>
          && Opens(buf, f, fields[f].off)
          && (fields[f].End() < |buf| ==> Closes(f, buf[fields[f].End()])))
    && (Userinfo in fields ==>
          Host in fields && fields[Userinfo].End() < fields[Host].off && buf[fields[Userinfo].End()] == '@')
    && (Port in fields ==>
          var p := fields[Port];
          Host in fields && fields[Host].End() < p.off && buf[p.off - 1] == ':'
          && HttpLengths.AllDigits(buf[p.off..p.End()]))
  }

  /** The first pass without the second. */
  lemma FirstPass(buf: Bytes, isConnect: bool)
    requires ScanUrl(buf, |buf|, isConnect).s != Dead
    ensures var fields := ScanUrl(buf, |buf|, isConnect).fields;
            && (forall f :: f in fields ==>
                  && !f.Port? && !f.Userinfo? && 0 < fields[f].len && fields[f].End() <= |buf|
                  && Opens(buf, f, fields[f].off)
                  && (fields[f].End() < |buf| ==> Closes(f, buf[fields[f].End()])))
            && (forall f, g :: f in fields && g in fields && Order(f) < Order(g) ==> fields[f].End() <= fields[g].off)
  {
    hide ScanUrl, Closes, Opens, InField, FieldOf, Level;
    ScanPlaced(buf, |buf|, isConnect);
    var t := ScanUrl(buf, |buf|, isConnect);
    forall f | f in t.fields ensures FieldPlaced(buf, |buf|, t, f) {
    }
  }

  /** User, host and port lie inside the bytes from h to e, in this order. */
  ghost predicate HostRegion(buf: Bytes, h: nat, e: nat, r: Fields7)
    requires e <= |buf|
  {
    && Host in r && h <= r[Host].off && 0 < r[Host].len && r[Host].End() <= e
    && (Userinfo in r ==>
          r[Userinfo].off == h && 0 < r[Userinfo].len && r[Userinfo].End() < r[Host].off
          && buf[r[Userinfo].End()] == '@')
    && (Port in r ==>
          && r[Host].End() < r[Port].off && 0 < r[Port].len && r[Port].End() <= e && buf[r[Port].off - 1] == ':'
          && HttpLengths.AllDigits(buf[r[Port].off..r[Port].End()]))
  }

  lemma RegionPlaced(buf: Bytes, h: nat, e: nat, before: Fields7, t: HostScan)
    requires h <= e <= |buf| && HostPlaced(buf, h, e, before, t) && HostMayEnd(t.s)
    ensures HostRegion(buf, h, e, t.fields)
  {
    hide IsNum;
  }

  lemma Combined(buf: Bytes, fields: Fields7, r: Fields7)
    requires Host in fields && fields[Host].End() <= |buf|
    requires forall f :: f in fields ==>
               && !f.Port? && !f.Userinfo? && 0 < fields[f].len && fields[f].End() <= |buf|
               && Opens(buf, f, fields[f].off)
               && (fields[f].End() < |buf| ==> Closes(f, buf[fields[f].End()]))
    requires forall f, g :: f in fields && g in fields && Order(f) < Order(g) ==> fields[f].End() <= fields[g].off
    requires HostRegion(buf, fields[Host].off, fields[Host].End(), r)
    requires r.Keys <= fields.Keys + {Host, Port, Userinfo}
    requires forall f :: f in fields && f != Host ==> f in r && r[f] == fields[f]
    ensures Decomposed(buf, r)
  {
    hide Closes, Opens, Order, HttpLengths.AllDigits;
    forall f | f in r && (f.Schema? || f.Path? || f.Query? || f.Fragment?)
      ensures Opens(buf, f, r[f].off) && (r[f].End() < |buf| ==> Closes(f, buf[r[f].End()]))
    {
      assert f in fields && r[f] == fields[f];
    }
    forall f | f in r ensures 0 < r[f].len && r[f].End() <= |buf| {
      assert f in fields || f == Port || f == Userinfo;
    }
    forall f, g | f in r && g in r && Order(f) < Order(g) ensures r[f].End() <= r[g].off {
      Ordered(buf, fields, r, f, g);
    }
  }

  lemma Ordered(buf: Bytes, fields: Fields7, r: Fields7, f: UrlField, g: UrlField)
    requires Host in fields && fields[Host].End() <= |buf|
    requires forall x, y :: x in fields && y in fields && Order(x) < Order(y) ==> fields[x].End() <= fields[y].off
    requires HostRegion(buf, fields[Host].off, fields[Host].End(), r)
    requires r.Keys <= fields.Keys + {Host, Port, Userinfo}
    requires forall x :: x in fields && x != Host ==> x in r && r[x] == fields[x]
    requires f in r && g in r && Order(f) < Order(g) && Port !in fields && Userinfo !in fields
    ensures r[f].End() <= r[g].off
  {
    hide HttpLengths.AllDigits;
    var inHost, inHost' := f.Host? || f.Port? || f.Userinfo?, g.Host? || g.Port? || g.Userinfo?;
    assert inHost || f in fields;
    assert inHost' || g in fields;
    if inHost && !inHost' {
      assert Order(Host) < Order(g);
    } else if !inHost && inHost' {
      assert Order(f) < Order(Host);
    }
  }

  lemma WithHost(buf: Bytes, fields: Fields7, foundAt: bool)
    requires Host in fields && fields[Host].End() <= |buf|
    requires forall f :: f in fields ==>
               && !f.Port? && !f.Userinfo? && 0 < fields[f].len && fields[f].End() <= |buf|
               && Opens(buf, f, fields[f].off)
               && (fields[f].End() < |buf| ==> Closes(f, buf[fields[f].End()]))
    requires forall f, g :: f in fields && g in fields && Order(f) < Order(g) ==> fields[f].End() <= fields[g].off
    ensures var r := ParseHost(buf, fields, foundAt);
            r != [] ==> Decomposed(buf, r[0])
  {
    hide ScanHost, Closes, Opens, HostRegion, Decomposed, Order;
    var host := fields[Host];
    var start := HostScan(if foundAt then UserinfoStart else HostStart, fields[Host := Slice(host.off, 0)]);
    HostPlacedAfter(buf, host.off, host.End(), start);
    var t := ScanHost(buf, host.off, host.End(), start);
    if HostMayEnd(t.s) {
      assert HostPlaced(buf, host.off, host.End(), start.fields, t);
      RegionPlaced(buf, host.off, host.End(), start.fields, t);
      SameOutside(buf, host.off, host.End(), start.fields, t);
      Combined(buf, fields, t.fields);
    }
  }

  lemma SameOutside(buf: Bytes, h: nat, e: nat, before: Fields7, t: HostScan)
    requires h <= e <= |buf| && HostPlaced(buf, h, e, before, t)
    ensures t.fields.Keys <= before.Keys + {Host, Port, Userinfo}
    ensures forall f :: f in before && f != Host ==> f in t.fields && t.fields[f] == before[f]
  {
  }

  /** http_parser_parse_url; no value means failure. */
  function ParseUrl(buf: Bytes, isConnect: bool): (r: seq<Parts>)
    ensures |r| <= 1
  {
    var t := ScanUrl(buf, |buf|, isConnect);
    if buf == [] || t.s == Dead || (Schema in t.fields && Host !in t.fields) then []
    else
      FirstPass(buf, isConnect);
      var r := if Host in t.fields then ParseHost(buf, t.fields, t.foundAt) else [t.fields];
      if r == [] || (isConnect && r[0].Keys != {Host, Port}) then []
      else PortOf(buf, isConnect, r[0])
  }

  /** The port's value, which has sixteen bits. */
  function PortOf(buf: Bytes, isConnect: bool, fields: Fields7): (r: seq<Parts>)
    ensures |r| <= 1
  {
    if Port !in fields then [Parts(fields, 0)]
    else if fields[Port].End() <= |buf| && HttpLengths.AllDigits(buf[fields[Port].off..fields[Port].End()]) then
      var v := HttpLengths.Decimal(buf[fields[Port].off..fields[Port].End()]);
      if v > 0xFFFF then [] else [Parts(fields, v)]
    else []
  }

  /** Success means a decomposition, with the port's value. */
  lemma UrlDecomposed(buf: Bytes, isConnect: bool)
    ensures var r := ParseUrl(buf, isConnect);
            r != [] ==>
              && Decomposed(buf, r[0].fields)
              && r[0].port == (if Port in r[0].fields
                               then HttpLengths.Decimal(buf[r[0].fields[Port].off..r[0].fields[Port].End()]) else 0)
              && r[0].port <= 0xFFFF
              && (isConnect ==> r[0].fields.Keys == {Host, Port})
  {
    hide ScanUrl, ParseHost;
    var t := ScanUrl(buf, |buf|, isConnect);
    if ParseUrl(buf, isConnect) != [] {
      FirstPass(buf, isConnect);
      if Host in t.fields {
        WithHost(buf, t.fields, t.foundAt);
      }
    }
  }

  // ---------- The struct that is filled ----------

  lemma {:induction false} DeadForever(buf: Bytes, p: nat, n: nat, isConnect: bool)
    requires p <= n <= |buf| && ScanUrl(buf, p, isConnect).s == Dead
    ensures ScanUrl(buf, n, isConnect).s == Dead
  {
    hide ScanStep;
    if p == n {
    } else {
      DeadForever(buf, p, n - 1, isConnect);
      DeadStays(ScanUrl(buf, n - 1, isConnect), n - 1, buf[n - 1]);
    }
  }

  lemma {:induction false} HostDeadForever(buf: Bytes, h: nat, p: nat, n: nat, start: HostScan)
    requires h <= p <= n <= |buf| && Host in start.fields && ScanHost(buf, h, p, start).s.HostDead?
    ensures ScanHost(buf, h, n, start).s.HostDead?
    decreases n
  {
    hide HostStep;
    if p == n {
    } else {
      HostDeadForever(buf, h, p, n - 1, start);
    }
  }

  lemma {:induction false} PortGrows(d: Bytes, k: nat)
    requires HttpLengths.AllDigits(d) && k <= |d|
    ensures HttpLengths.Decimal(d[..k]) <= HttpLengths.Decimal(d)
  {
    if k < |d| {
      PortGrows(d[..|d| - 1], k);
      assert d[..|d| - 1][..k] == d[..k];
    } else {
      assert d[..k] == d;
    }
  }

  class UrlStruct {
    /** field_set and field_data: the set fields. */
    var fields: Fields7
    var port: nat

    /** http_parse_host. */
    method FillHost(buf: Bytes, foundAt: bool) returns (failed: bool)
      requires Host in fields && fields[Host].End() <= |buf|
      modifies `fields
      ensures var r := ParseHost(buf, old(fields), foundAt);
              && (failed <==> r == []) && (!failed ==> fields == r[0])
    {
      hide ScanHost, HostStep;
      var h, e := fields[Host].off, fields[Host].End();
      fields := fields[Host := Slice(h, 0)];
      var s := if foundAt then UserinfoStart else HostStart;
      ghost var start := HostScan(s, fields);
      assert ScanHost(buf, h, h, start) == start by {
        ScanNothing(buf, h, start);
      }
      for p := h to e
        invariant Host in fields && !s.HostDead? && ScanHost(buf, h, p, start) == HostScan(s, fields)
      {
        ScanOne(buf, h, p, start);
        var next := HostStep(HostScan(s, fields), p, buf[p]);
        if next.s.HostDead? {
          HostDeadForever(buf, h, p + 1, e, start);
          return true;
        }
        s, fields := next.s, next.fields;
      }
      failed := !HostMayEnd(s);
    }

    /** The loop over the port's digits, which stops at a value that is too large. */
    method FillPort(buf: Bytes) returns (failed: bool)
      requires Port in fields && fields[Port].End() <= |buf|
      requires HttpLengths.AllDigits(buf[fields[Port].off..fields[Port].End()])
      modifies `port
      ensures var v := HttpLengths.Decimal(buf[fields[Port].off..fields[Port].End()]);
              failed == (v > 0xFFFF) && (!failed ==> port == v)
    {
      var d := buf[fields[Port].off..fields[Port].End()];
      var v := 0;
      for i := 0 to |d|
        invariant v == HttpLengths.Decimal(d[..i]) && v <= 0xFFFF
      {
        assert d[..i + 1][..i] == d[..i];
        v := v * 10 + Digit(d[i]);
        if v > 0xFFFF {
          PortGrows(d, i + 1);
          return true;
        }
      }
      assert d[..|d|] == d;
      port := v;
      return false;
    }

    /** The loop of http_parser_parse_url, which stops at the first bad byte. */
    method FirstScan(buf: Bytes, isConnect: bool) returns (t: Scan)
      ensures t.s == Dead <==> ScanUrl(buf, |buf|, isConnect).s == Dead
      ensures t.s != Dead ==> t == ScanUrl(buf, |buf|, isConnect)
    {
      hide ScanUrl, ScanStep;
      t := Start(isConnect);
      ScanBegins(buf, isConnect);
      for p := 0 to |buf|
        invariant t == ScanUrl(buf, p, isConnect) && t.s != Dead
      {
        ScanNext(buf, p, isConnect);
        t := ScanStep(t, p, buf[p]);
        if t.s == Dead {
          DeadForever(buf, p + 1, |buf|, isConnect);
          return;
        }
      }
    }

    /** http_parser_parse_url. */
    method Fill(buf: Bytes, isConnect: bool) returns (failed: bool)
      requires |buf| <= 0xFFFF
      modifies this
      ensures var r := ParseUrl(buf, isConnect);
              && (failed <==> r == []) && (!failed ==> r[0] == Parts(fields, port))
      ensures !failed ==> Decomposed(buf, fields) && port <= 0xFFFF
    {
      hide ScanUrl, ScanStep, ParseHost, Decomposed, Placed;
      UrlDecomposed(buf, isConnect);
      if |buf| == 0 {
        return true;
      }
      port, fields := 0, map[];
      var t := FirstScan(buf, isConnect);
      if t.s == Dead {
        return true;
      }
      fields := t.fields;
      if Schema in fields && Host !in fields {
        return true;
      }
      FirstPass(buf, isConnect);
      if Host in fields {
        WithHost(buf, fields, t.foundAt);
        failed := FillHost(buf, t.foundAt);
        if failed {
          return true;
        }
      }
      if isConnect && fields.Keys != {Host, Port} {
        return true;
      }
      if Port in fields {
        PortDigits(buf, fields);
        failed := FillPort(buf);
        return failed;
      }
      return false;
    }
  }

  lemma PortDigits(buf: Bytes, fields: Fields7)
    requires Decomposed(buf, fields) && Port in fields
    ensures fields[Port].End() <= |buf| && HttpLengths.AllDigits(buf[fields[Port].off..fields[Port].End()])
  {
  }

  lemma ScanBegins(buf: Bytes, isConnect: bool)
    ensures ScanUrl(buf, 0, isConnect) == Start(isConnect)
  {
  }

  lemma ScanNext(buf: Bytes, p: nat, isConnect: bool)
    requires p < |buf|
    ensures ScanUrl(buf, p + 1, isConnect) == ScanStep(ScanUrl(buf, p, isConnect), p, buf[p])
  {
  }

  lemma ScanNothing(buf: Bytes, h: nat, start: HostScan)
    requires h <= |buf| && Host in start.fields
    ensures ScanHost(buf, h, h, start) == start
  {
  }

  lemma ScanOne(buf: Bytes, h: nat, p: nat, start: HostScan)
    requires h <= p < |buf| && Host in start.fields
    ensures var t := ScanHost(buf, h, p, start);
            ScanHost(buf, h, p + 1, start) == if t.s.HostDead? then t else HostStep(t, p, buf[p])
  {
    hide HostStep;
  }
}

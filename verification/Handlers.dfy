/** The registry of handlers: a linked list of entries with unique keys, kept in
    the order of their registration. */
module Handlers {
  import opened Glob

  datatype Kind = Request | WebSocket | Auth

  /** Function pointers; null if there is none. */
  type Pointer = nat
  const NULL: Pointer := 0

  datatype Callbacks = Callbacks(handler: Pointer, connect: Pointer, ready: Pointer, data: Pointer, close: Pointer,
                                 auth: Pointer)

  datatype Entry = Entry(kind: Kind, uri: string, callbacks: Callbacks, cbdata: Pointer)

  // ---------- The list as a map ----------

  predicate HasKey(e: Entry, kind: Kind, uri: string) {
    e.kind == kind && e.uri == uri
  }

  ghost predicate UniqueKeys(entries: seq<Entry>) {
    forall i, j :: 0 <= i < j < |entries| ==> !HasKey(entries[i], entries[j].kind, entries[j].uri)
  }

  /** Where the key is, or the length. */
  function Find(entries: seq<Entry>, kind: Kind, uri: string): (n: nat)
    ensures n <= |entries| && (n < |entries| ==> HasKey(entries[n], kind, uri))
    ensures forall k :: 0 <= k < n ==> !HasKey(entries[k], kind, uri)
  {
    if entries == [] || HasKey(entries[0], kind, uri) then 0 else 1 + Find(entries[1..], kind, uri)
  }

  /** Only the callbacks of a kind may be given, and for a registration some of
      them must be. */
  predicate Accepted(kind: Kind, isDelete: bool, c: Callbacks) {
    match kind
    case WebSocket =>
      c.handler == NULL && c.auth == NULL
      && (isDelete || c.connect != NULL || c.ready != NULL || c.data != NULL || c.close != NULL)
    case Request =>
      c.connect == c.ready == c.data == c.close == c.auth == NULL && (isDelete || c.handler != NULL)
    case Auth =>
      c.handler == c.connect == c.ready == c.data == c.close == NULL && (isDelete || c.auth != NULL)
  }

  /** The list after mg_set_handler_type. */
  function Updated(entries: seq<Entry>, e: Entry, isDelete: bool): seq<Entry> {
    var n := Find(entries, e.kind, e.uri);
    if !Accepted(e.kind, isDelete, e.callbacks) then entries
    else if isDelete then if n < |entries| then entries[..n] + entries[n + 1..] else entries
    else if n < |entries| then entries[n := e] else entries + [e]
  }

  /** An entry holds a callback of its kind, and none of another. */
  predicate OwnCallbacks(kind: Kind, c: Callbacks) {
    match kind
    case Request => c.handler != NULL && c == Callbacks(c.handler, NULL, NULL, NULL, NULL, NULL)
    case WebSocket =>
      c == Callbacks(NULL, c.connect, c.ready, c.data, c.close, NULL)
      && c != Callbacks(NULL, NULL, NULL, NULL, NULL, NULL)
    case Auth => c.auth != NULL && c == Callbacks(NULL, NULL, NULL, NULL, NULL, c.auth)
  }

  ghost predicate Clean(entries: seq<Entry>) {
    forall e :: e in entries ==> OwnCallbacks(e.kind, e.callbacks)
  }

  /** A registration is accepted if and only if that is what it gives; a removal, if it
      gives nothing of another kind. */
  lemma AcceptedExactly(kind: Kind, c: Callbacks)
    ensures Accepted(kind, false, c) <==> OwnCallbacks(kind, c)
    ensures Accepted(kind, true, c) <==> OwnCallbacks(kind, c) || c == Callbacks(NULL, NULL, NULL, NULL, NULL, NULL)
  {
  }

  lemma UpdatedKeepsKeys(entries: seq<Entry>, e: Entry, isDelete: bool)
    requires UniqueKeys(entries)
    ensures UniqueKeys(Updated(entries, e, isDelete))
  {
  }

  function Other(entries: seq<Entry>, kind: Kind, uri: string): seq<Entry> {
    if entries == [] then []
    else (if HasKey(entries[0], kind, uri) then [] else [entries[0]]) + Other(entries[1..], kind, uri)
  }

  lemma {:induction false} OtherParts(a: seq<Entry>, b: seq<Entry>, kind: Kind, uri: string)
    ensures Other(a + b, kind, uri) == Other(a, kind, uri) + Other(b, kind, uri)
  {
    if a == [] {
      assert a + b == b;
    } else {
      assert (a + b)[1..] == a[1..] + b;
      OtherParts(a[1..], b, kind, uri);
    }
  }

  /** An accepted update is the update of a map: the key has the new entry, or
      none, and the other entries and their order stay. */
  lemma UpdatedIsUpdate(entries: seq<Entry>, e: Entry, isDelete: bool)
    requires UniqueKeys(entries) && Accepted(e.kind, isDelete, e.callbacks)
    ensures var t := Updated(entries, e, isDelete);
            && Other(t, e.kind, e.uri) == Other(entries, e.kind, e.uri)
            && (isDelete ==> forall x :: x in t ==> !HasKey(x, e.kind, e.uri))
            && (!isDelete ==> e in t && forall x :: x in t && HasKey(x, e.kind, e.uri) ==> x == e)
  {
    var n := Find(entries, e.kind, e.uri);
    var t := Updated(entries, e, isDelete);
    UpdatedKeepsKeys(entries, e, isDelete);
    UniqueIsOnly(t, e.kind, e.uri);
    hide Accepted, UniqueKeys, HasKey, Other;
    if n < |entries| {
      var a, b := entries[..n], entries[n + 1..];
      assert entries == a + [entries[n]] + b;
      OtherParts(a + [entries[n]], b, e.kind, e.uri);
      OtherParts(a, [entries[n]], e.kind, e.uri);
      OtherOne(entries[n], e.kind, e.uri);
      OtherOne(e, e.kind, e.uri);
      if isDelete {
        RemovedIsGone(entries, e.kind, e.uri, n);
        OtherParts(a, b, e.kind, e.uri);
      } else {
        assert t == a + [e] + b && t[n] == e;
        OtherParts(a + [e], b, e.kind, e.uri);
        OtherParts(a, [e], e.kind, e.uri);
      }
    } else if !isDelete {
      OtherParts(entries, [e], e.kind, e.uri);
      OtherOne(e, e.kind, e.uri);
      assert t[|entries|] == e;
    }
  }

  /** A key has one entry at most. */
  lemma UniqueIsOnly(t: seq<Entry>, kind: Kind, uri: string)
    requires UniqueKeys(t)
    ensures forall x, y :: x in t && y in t && HasKey(x, kind, uri) && HasKey(y, kind, uri) ==> x == y
  {
  }

  lemma RemovedIsGone(entries: seq<Entry>, kind: Kind, uri: string, n: nat)
    requires UniqueKeys(entries) && n < |entries| && HasKey(entries[n], kind, uri)
    ensures forall x :: x in entries[..n] + entries[n + 1..] ==> !HasKey(x, kind, uri)
  {
  }

  lemma OtherOne(e: Entry, kind: Kind, uri: string)
    ensures Other([e], kind, uri) == (if HasKey(e, kind, uri) then [] else [e]) && HasKey(e, e.kind, e.uri)
  {
    assert [e][1..] == [];
  }

  // ---------- The functions that register ----------

  /** mg_set_request_handler, mg_set_websocket_handler and mg_set_auth_handler. */
  datatype Registration =
    | SetRequest(uri: string, handler: Pointer, cbdata: Pointer)
    | SetWebSocket(uri: string, connect: Pointer, ready: Pointer, data: Pointer, close: Pointer, cbdata: Pointer)
    | SetAuth(uri: string, auth: Pointer, cbdata: Pointer)

  function EntryOf(r: Registration): Entry {
    match r
    case SetRequest(uri, handler, cbdata) =>
      Entry(Request, uri, Callbacks(handler, NULL, NULL, NULL, NULL, NULL), cbdata)
    case SetWebSocket(uri, connect, ready, data, close, cbdata) =>
      Entry(WebSocket, uri, Callbacks(NULL, connect, ready, data, close, NULL), cbdata)
    case SetAuth(uri, auth, cbdata) =>
      Entry(Auth, uri, Callbacks(NULL, NULL, NULL, NULL, NULL, auth), cbdata)
  }

  /** A call without callbacks removes. */
  predicate Removes(r: Registration) {
    match r
    case SetRequest(_, handler, _) => handler == NULL
    case SetWebSocket(_, connect, ready, data, close, _) => connect == ready == data == close == NULL
    case SetAuth(_, auth, _) => auth == NULL
  }

  function Registered(entries: seq<Entry>, r: Registration): seq<Entry> {
    Updated(entries, EntryOf(r), Removes(r))
  }

  /** Every call takes effect: what it registers is found under its uri, or nothing is
      left under the key that it removes; and it leaves all other entries alone. */
  lemma RegistrationTakesEffect(entries: seq<Entry>, r: Registration)
    requires UniqueKeys(entries)
    ensures var t, e := Registered(entries, r), EntryOf(r);
            && Other(t, e.kind, e.uri) == Other(entries, e.kind, e.uri)
            && (Removes(r) ==> forall x :: x in t ==> !HasKey(x, e.kind, e.uri))
            && (!Removes(r) ==> Lookup(t, e.kind, e.uri) < |t| && t[Lookup(t, e.kind, e.uri)] == e)
  {
    var e := EntryOf(r);
    AcceptedExactly(e.kind, e.callbacks);
    assert Accepted(e.kind, Removes(r), e.callbacks);
    hide Accepted, OwnCallbacks, Updated, Lookup, Other;
    UpdatedIsUpdate(entries, e, Removes(r));
    LookupAfterUpdate(entries, e, Removes(r), e);
  }

  // ---------- Lookup ----------

  /** Three ways for a registered uri to fit a requested one. */
  datatype Way = Exact | Slash | Pattern

  predicate Fits(way: Way, e: Entry, kind: Kind, uri: string) {
    e.kind == kind
    && match way
       case Exact => e.uri == uri
       case Slash => |e.uri| < |uri| && uri[|e.uri|] == '/' && e.uri == uri[..|e.uri|]
       case Pattern => Match(e.uri, uri) > 0
  }

  lemma FitsKind(way: Way, e: Entry, kind: Kind, uri: string)
    ensures Fits(way, e, kind, uri) ==> e.kind == kind
  {
  }

  function First(way: Way, entries: seq<Entry>, kind: Kind, uri: string): (n: nat)
    ensures n <= |entries| && (n < |entries| ==> Fits(way, entries[n], kind, uri))
    ensures forall k :: 0 <= k < n ==> !Fits(way, entries[k], kind, uri)
  {
    if entries == [] || Fits(way, entries[0], kind, uri) then 0 else 1 + First(way, entries[1..], kind, uri)
  }

  /** get_request_handler: the entry's position, or the length. */
  function Lookup(entries: seq<Entry>, kind: Kind, uri: string): nat {
    var x := First(Exact, entries, kind, uri);
    var y := First(Slash, entries, kind, uri);
    if x < |entries| then x else if y < |entries| then y else First(Pattern, entries, kind, uri)
  }

  predicate Better(v: Way, w: Way) {
    (v.Exact? && !w.Exact?) || (v.Slash? && w.Pattern?)
  }

  /** An exact fit beats a fit up to a slash, and that a pattern; among fits of
      one way the oldest entry wins; nothing is found only if nothing fits. */
  lemma LookupPriority(entries: seq<Entry>, kind: Kind, uri: string) returns (way: Way)
    ensures var n := Lookup(entries, kind, uri);
            && (n < |entries| ==>
                  && Fits(way, entries[n], kind, uri)
                  && (forall k :: 0 <= k < n ==> !Fits(way, entries[k], kind, uri))
                  && forall v, k :: Better(v, way) && 0 <= k < |entries| ==> !Fits(v, entries[k], kind, uri))
            && (n >= |entries| <==> forall v, k :: 0 <= k < |entries| ==> !Fits(v, entries[k], kind, uri))
  {
    hide Fits;
    var x, y := First(Exact, entries, kind, uri), First(Slash, entries, kind, uri);
    way := if x < |entries| then Exact else if y < |entries| then Slash else Pattern;
    var n := Lookup(entries, kind, uri);
    if n >= |entries| {
      forall v: Way, k | 0 <= k < |entries| ensures !Fits(v, entries[k], kind, uri) {
        match v
        case Exact =>
        case Slash =>
        case Pattern =>
      }
    } else {
      assert Fits(way, entries[n], kind, uri);
    }
  }

  /** A registered handler is found under its uri; another registered uri still
      finds its own. */
  lemma LookupAfterUpdate(entries: seq<Entry>, e: Entry, isDelete: bool, other: Entry)
    requires UniqueKeys(entries) && Accepted(e.kind, isDelete, e.callbacks)
    ensures var t := Updated(entries, e, isDelete);
            && (!isDelete ==> Lookup(t, e.kind, e.uri) < |t| && t[Lookup(t, e.kind, e.uri)] == e)
            && (other in entries && !HasKey(other, e.kind, e.uri) ==>
                  var n := Lookup(t, other.kind, other.uri); n < |t| && t[n] == other)
  {
    hide Updated, Accepted;
    var t := Updated(entries, e, isDelete);
    UpdatedKeepsKeys(entries, e, isDelete);
    UpdatedIsUpdate(entries, e, isDelete);
    if !isDelete {
      FoundExactly(t, e);
    }
    if other in entries && !HasKey(other, e.kind, e.uri) {
      OtherHas(entries, e.kind, e.uri, other);
      OtherHas(t, e.kind, e.uri, other);
      FoundExactly(t, other);
    }
  }

  lemma {:induction false} OtherHas(entries: seq<Entry>, kind: Kind, uri: string, x: Entry)
    ensures x in Other(entries, kind, uri) <==> x in entries && !HasKey(x, kind, uri)
  {
    if entries == [] {
    } else {
      OtherHas(entries[1..], kind, uri, x);
      assert entries == [entries[0]] + entries[1..];
    }
  }

  lemma FoundExactly(entries: seq<Entry>, e: Entry)
    requires UniqueKeys(entries) && e in entries
    ensures var n := Lookup(entries, e.kind, e.uri); n < |entries| && entries[n] == e
  {
    var n := First(Exact, entries, e.kind, e.uri);
    var k :| 0 <= k < |entries| && entries[k] == e;
    assert Fits(Exact, entries[k], e.kind, e.uri);
    assert n <= k;
  }

  // ---------- The linked list ----------

  class Node {
    const kind: Kind
    const uri: string
    var callbacks: Callbacks
    var cbdata: Pointer
    var next: Node?

    constructor (kind: Kind, uri: string)
      ensures this.kind == kind && this.uri == uri && next == null
      ensures callbacks == Callbacks(NULL, NULL, NULL, NULL, NULL, NULL)
    {
      this.kind, this.uri, next := kind, uri, null;
      callbacks, cbdata := Callbacks(NULL, NULL, NULL, NULL, NULL, NULL), NULL;
    }

    function Value(): Entry
      reads this
    {
      Entry(kind, uri, callbacks, cbdata)
    }

    /** The callbacks of the node's kind are replaced. */
    method Replace(c: Callbacks, cbdata: Pointer)
      requires Accepted(kind, false, c)
      requires callbacks == Callbacks(NULL, NULL, NULL, NULL, NULL, NULL) || Accepted(kind, false, callbacks)
      modifies this`callbacks, this`cbdata
      ensures callbacks == c && this.cbdata == cbdata
    {
      match kind {
        case Request =>
          callbacks := callbacks.(handler := c.handler);
        case WebSocket =>
          callbacks := callbacks.(connect := c.connect, ready := c.ready, data := c.data, close := c.close);
        case Auth =>
          callbacks := callbacks.(auth := c.auth);
      }
      this.cbdata := cbdata;
    }
  }

  ghost function EntriesOf(nodes: seq<Node>): (s: seq<Entry>)
    reads nodes
    ensures |s| == |nodes| && forall i :: 0 <= i < |nodes| ==> s[i] == nodes[i].Value()
  {
    seq(|nodes|, i requires 0 <= i < |nodes| reads nodes => nodes[i].Value())
  }

  lemma EntriesWithout(nodes: seq<Node>, n: nat)
    requires n < |nodes|
    ensures EntriesOf(nodes[..n] + nodes[n + 1..]) == EntriesOf(nodes)[..n] + EntriesOf(nodes)[n + 1..]
  {
  }

  ghost predicate Distinct(nodes: seq<Node>) {
    forall i, j :: 0 <= i < j < |nodes| ==> nodes[i] != nodes[j]
  }

  function Nth(nodes: seq<Node>, i: nat): Node? {
    if i < |nodes| then nodes[i] else null
  }

  ghost predicate Chained(nodes: seq<Node>)
    reads nodes
  {
    forall i :: 0 <= i < |nodes| ==> nodes[i].next == Nth(nodes, i + 1)
  }

  /** A list whose node before n points behind n is a list without n. */
  lemma ChainWithout(nodes: seq<Node>, n: nat)
    requires n < |nodes|
    requires forall i :: 0 <= i < |nodes| ==> nodes[i].next == Nth(nodes, if i == n - 1 then n + 1 else i + 1)
    ensures Chained(nodes[..n] + nodes[n + 1..])
    ensures Nth(nodes[..n] + nodes[n + 1..], 0) == Nth(nodes, if n == 0 then 1 else 0)
  {
    var rest := nodes[..n] + nodes[n + 1..];
    forall i | 0 <= i < |rest| ensures rest[i].next == Nth(rest, i + 1) {
      assert rest[i] == nodes[if i < n then i else i + 1];
    }
  }

  lemma DistinctWithout(nodes: seq<Node>, n: nat)
    requires Distinct(nodes) && n < |nodes|
    ensures Distinct(nodes[..n] + nodes[n + 1..])
  {
    var rest := nodes[..n] + nodes[n + 1..];
    forall i, j | 0 <= i < j < |rest| ensures rest[i] != rest[j] {
      assert rest[i] == nodes[if i < n then i else i + 1] && rest[j] == nodes[if j < n then j else j + 1];
    }
  }

  lemma ChainWith(nodes: seq<Node>, node: Node)
    requires forall i :: 0 <= i < |nodes| ==> nodes[i].next == Nth(nodes + [node], i + 1)
    requires node.next == null
    ensures Chained(nodes + [node])
  {
    var all := nodes + [node];
    forall i | 0 <= i < |all| ensures all[i].next == Nth(all, i + 1) {
      if i == |nodes| {
        assert all[i] == node;
      } else {
        assert all[i] == nodes[i];
      }
    }
  }

  lemma DistinctWith(nodes: seq<Node>, node: Node)
    requires Distinct(nodes) && node !in nodes
    ensures Distinct(nodes + [node])
  {
  }

  lemma EntriesWith(nodes: seq<Node>, node: Node)
    ensures EntriesOf(nodes + [node]) == EntriesOf(nodes) + [node.Value()]
  {
  }

  class Registry {
    var handlers: Node?
    ghost var nodes: seq<Node>

    ghost function At(i: nat): Node?
      reads this
    {
      Nth(nodes, i)
    }

    /** The list has no cycle: it runs once through nodes. */
    ghost predicate Linked()
      reads this, nodes
    {
      && handlers == At(0)
      && Distinct(nodes)
      && Chained(nodes)
    }

    ghost function Entries(): (s: seq<Entry>)
      reads this, nodes
      ensures |s| == |nodes|
    {
      EntriesOf(nodes)
    }

    ghost predicate Valid()
      reads this, nodes
    {
      Linked() && UniqueKeys(Entries()) && Clean(Entries())
    }

    constructor ()
      ensures Valid() && Entries() == []
    {
      handlers, nodes := null, [];
    }

    /** The search: last is the node whose next field lastref points to, or null
        while it points to the list's head. */
    method FindNode(kind: Kind, uri: string) returns (last: Node?, tmp: Node?, ghost n: nat)
      requires Linked()
      ensures n == Find(Entries(), kind, uri) && tmp == At(n) && last == if n == 0 then null else At(n - 1)
    {
      hide Find, Distinct, EntriesOf;
      last, tmp, n := null, handlers, 0;
      while tmp != null
        invariant n <= |nodes| && tmp == At(n) && last == if n == 0 then null else At(n - 1)
        invariant forall k :: 0 <= k < n ==> !HasKey(Entries()[k], kind, uri)
        decreases |nodes| - n
      {
        if tmp.kind == kind && |uri| == |tmp.uri| && tmp.uri == uri {
          assert HasKey(Entries()[n], kind, uri);
          FindIs(Entries(), kind, uri, n);
          return;
        }
        assert !HasKey(Entries()[n], kind, uri);
        last := tmp;
        tmp := tmp.next;
        n := n + 1;
      }
      FindIs(Entries(), kind, uri, n);
    }

    /** The splice: only one link changes. */
    method Unlink(last: Node?, tmp: Node, ghost n: nat)
      requires Linked() && n < |nodes| && tmp == At(n) && last == if n == 0 then null else At(n - 1)
      modifies this`handlers, nodes
      ensures handlers == if n == 0 then At(1) else At(0)
      ensures forall i :: 0 <= i < |nodes| ==> nodes[i].next == Nth(nodes, if i == n - 1 then n + 1 else i + 1)
      ensures EntriesOf(nodes) == old(EntriesOf(nodes))
    {
      if last == null {
        handlers := tmp.next;
      } else {
        last.next := tmp.next;
      }
    }

    method Remove(last: Node?, tmp: Node, ghost n: nat)
      requires Linked() && n < |nodes| && tmp == At(n) && last == if n == 0 then null else At(n - 1)
      modifies this, nodes
      ensures Linked() && nodes == old(nodes)[..n] + old(nodes)[n + 1..]
      ensures Entries() == old(Entries())[..n] + old(Entries())[n + 1..]
    {
      hide Distinct, EntriesOf, Chained;
      ghost var was := nodes;
      DistinctWithout(was, n);
      Unlink(last, tmp, n);
      EntriesWithout(was, n);
      ChainWithout(was, n);
      nodes := was[..n] + was[n + 1..];
    }

    method ReplaceAt(tmp: Node, ghost n: nat, c: Callbacks, cbdata: Pointer)
      requires Linked() && n < |nodes| && tmp == nodes[n] && Accepted(tmp.kind, false, c)
      requires Accepted(tmp.kind, false, tmp.callbacks)
      modifies tmp`callbacks, tmp`cbdata
      ensures Linked() && Entries() == old(Entries())[n := Entry(tmp.kind, tmp.uri, c, cbdata)]
    {
      tmp.Replace(c, cbdata);
    }

    method Append(last: Node?, node: Node)
      requires Linked() && last == (if |nodes| == 0 then null else At(|nodes| - 1))
      requires node !in nodes && node.next == null
      modifies this, nodes
      ensures Linked() && nodes == old(nodes) + [node] && Entries() == old(Entries()) + [old(node.Value())]
    {
      hide EntriesOf;
      ghost var was := nodes;
      SetLink(last, node);
      ChainWith(was, node);
      EntriesWith(was, node);
      DistinctWith(was, node);
      hide Chained, Distinct;
      nodes := was + [node];
    }

    /** *lastref = node, at the end of the list. */
    method SetLink(last: Node?, node: Node)
      requires Linked() && last == (if |nodes| == 0 then null else At(|nodes| - 1))
      requires node !in nodes
      modifies this`handlers, nodes
      ensures handlers == if nodes == [] then node else At(0)
      ensures forall i :: 0 <= i < |nodes| ==> nodes[i].next == Nth(nodes + [node], i + 1)
      ensures EntriesOf(nodes) == old(EntriesOf(nodes))
      ensures node.next == old(node.next) && node.Value() == old(node.Value())
    {
      if last == null {
        handlers := node;
      } else {
        last.next := node;
      }
    }

    /** mg_set_handler_type. */
    method SetHandlerType(kind: Kind, uri: string, isDelete: bool, c: Callbacks, cbdata: Pointer)
      requires Valid()
      modifies this, nodes
      ensures Valid() && Entries() == Updated(old(Entries()), Entry(kind, uri, c, cbdata), isDelete)
      ensures forall n :: n in nodes && n !in old(nodes) ==> fresh(n)
    {
      hide Find, UniqueKeys, Accepted, Linked, EntriesOf;
      ghost var entries, e := Entries(), Entry(kind, uri, c, cbdata);
      UpdatedKeepsKeys(entries, e, isDelete);
      UpdatedKeepsClean(entries, e, isDelete);
      if !Accepted(kind, isDelete, c) {
        return;
      }
      var last, tmp, n := FindNode(kind, uri);
      if tmp != null {
        if !isDelete {
          assert tmp.Value() == entries[n];
          ReplaceAt(tmp, n, c, cbdata);
        } else {
          Remove(last, tmp, n);
        }
        return;
      }
      if isDelete {
        return;
      }
      var node := new Node(kind, uri);
      node.Replace(c, cbdata);
      Append(last, node);
    }

    /** One pass of get_request_handler. */
    method FirstNode(way: Way, kind: Kind, uri: string) returns (tmp: Node?, ghost n: nat)
      requires Linked()
      ensures n == First(way, Entries(), kind, uri) && tmp == At(n)
    {
      hide Match, First, Distinct, EntriesOf, Fits;
      tmp, n := handlers, 0;
      while tmp != null
        invariant n <= |nodes| && tmp == At(n)
        invariant forall k :: 0 <= k < n ==> !Fits(way, Entries()[k], kind, uri)
        decreases |nodes| - n
      {
        FitsKind(way, tmp.Value(), kind, uri);
        if tmp.kind == kind {
          var fits := FitsUri(way, tmp.Value(), uri);
          if fits {
            FirstIs(way, Entries(), kind, uri, n);
            return;
          }
        }
        tmp := tmp.next;
        n := n + 1;
      }
      FirstIs(way, Entries(), kind, uri, n);
    }

    /** The test of one pass. */
    method FitsUri(way: Way, e: Entry, uri: string) returns (fits: bool)
      ensures fits == Fits(way, e, e.kind, uri)
    {
      match way {
        case Exact => fits := |uri| == |e.uri| && e.uri == uri;
        case Slash => fits := |e.uri| < |uri| && uri[|e.uri|] == '/' && e.uri == uri[..|e.uri|];
        case Pattern =>
          var r := MatchPrefix(e.uri, uri);
          fits := r > 0;
      }
    }

    /** get_request_handler. */
    method GetRequestHandler(kind: Kind, uri: string) returns (found: bool, c: Callbacks, cbdata: Pointer)
      requires Linked()
      ensures var n := Lookup(Entries(), kind, uri);
              && (found <==> n < |Entries()|)
              && (found ==> c == Entries()[n].callbacks && cbdata == Entries()[n].cbdata)
    {
      hide First, Linked, Fits;
      c, cbdata := Callbacks(NULL, NULL, NULL, NULL, NULL, NULL), NULL;
      var tmp, n := FirstNode(Exact, kind, uri);
      if tmp == null {
        tmp, n := FirstNode(Slash, kind, uri);
      }
      if tmp == null {
        tmp, n := FirstNode(Pattern, kind, uri);
      }
      if tmp == null {
        return false, c, cbdata;
      }
      assert tmp.Value() == Entries()[n];
      return true, tmp.callbacks, tmp.cbdata;
    }
  }

  lemma UpdatedKeepsClean(entries: seq<Entry>, e: Entry, isDelete: bool)
    requires Clean(entries)
    ensures Clean(Updated(entries, e, isDelete))
  {
    AcceptedExactly(e.kind, e.callbacks);
    hide Accepted, OwnCallbacks, Find;
  }

  lemma {:induction false} FindIs(entries: seq<Entry>, kind: Kind, uri: string, n: nat)
    requires n <= |entries| && (n < |entries| ==> HasKey(entries[n], kind, uri))
    requires forall k :: 0 <= k < n ==> !HasKey(entries[k], kind, uri)
    ensures Find(entries, kind, uri) == n
  {
  }

  lemma {:induction false} FirstIs(way: Way, entries: seq<Entry>, kind: Kind, uri: string, n: nat)
    requires n <= |entries| && (n < |entries| ==> Fits(way, entries[n], kind, uri))
    requires forall k :: 0 <= k < n ==> !Fits(way, entries[k], kind, uri)
    ensures First(way, entries, kind, uri) == n
  {
    hide Fits;
  }
}

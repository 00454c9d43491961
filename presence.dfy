/**
  The presence registry: the `connectedUsers` Map of server.js, which binds a
  username to the id of the socket that last joined under it.

  A JavaScript Map iterates in insertion order, and the disconnect handler scans
  it in that order, so the registry is modelled as the sequence of its entries:
  `set` on an existing key replaces that entry where it stands, `set` on a new
  key appends, and `delete` removes the entry and keeps the order of the rest.
 */
module Presence {

  datatype Option<T> = None | Some(value: T)

  type Name = string

  /** A socket id. socket.io ids are non-empty strings and never reused; only
      their identity matters here, so they are numbers. */
  type SocketId = nat

  datatype Entry = Entry(name: Name, socket: SocketId)

  type Registry = seq<Entry>

  /** A Map has at most one entry per key. */
  ghost predicate UniqueNames(m: Registry) {
    forall i, j :: 0 <= i < j < |m| ==> m[i].name != m[j].name
  }

  ghost predicate HasName(m: Registry, k: Name) {
    exists i :: 0 <= i < |m| && m[i].name == k
  }

  /** Position of the entry keyed `k`: the first one, which under UniqueNames is the only one. */
  function IndexOfName(m: Registry, k: Name): (r: Option<nat>)
    ensures r.Some? ==> r.value < |m| && m[r.value].name == k
    ensures forall j :: 0 <= j < |m| && (r.None? || j < r.value) ==> m[j].name != k
  {
    if m == [] then None
    else if m[0].name == k then Some(0)
    else match IndexOfName(m[1..], k) {
      case None => None
      case Some(i) => Some(i + 1)
    }
  }

  /** The first entry, in iteration order, whose socket is `s` (the `for … of` scan of the disconnect handler). */
  function FirstBoundTo(m: Registry, s: SocketId): (r: Option<nat>)
    ensures r.Some? ==> r.value < |m| && m[r.value].socket == s
    ensures forall j :: 0 <= j < |m| && (r.None? || j < r.value) ==> m[j].socket != s
  {
    if m == [] then None
    else if m[0].socket == s then Some(0)
    else match FirstBoundTo(m[1..], s) {
      case None => None
      case Some(i) => Some(i + 1)
    }
  }

  /** `connectedUsers.get(k)`. */
  function Lookup(m: Registry, k: Name): (r: Option<SocketId>)
    ensures r.None? <==> !HasName(m, k)
    ensures r.Some? ==> Entry(k, r.value) in m
  {
    match IndexOfName(m, k) {
      case None => None
      case Some(i) => Some(m[i].socket)
    }
  }

  /** `connectedUsers.set(k, v)`. */
  function Bind(m: Registry, k: Name, v: SocketId): (r: Registry)
    ensures HasName(m, k) ==> |r| == |m|
    ensures !HasName(m, k) ==> |r| == |m| + 1 && r[|m|] == Entry(k, v)
    ensures forall i :: 0 <= i < |m| ==> r[i].name == m[i].name
    ensures forall i :: 0 <= i < |m| && m[i].name != k ==> r[i] == m[i]
    ensures forall e :: e in r ==> e in m || e == Entry(k, v)
  {
    match IndexOfName(m, k) {
      case None => m + [Entry(k, v)]
      case Some(i) => m[i := Entry(k, v)]
    }
  }

  /** `connectedUsers.delete(k)`. */
  function Delete(m: Registry, k: Name): (r: Registry)
    ensures HasName(m, k) ==> |r| == |m| - 1
    ensures !HasName(m, k) ==> r == m
    ensures forall e :: e in r ==> e in m
    ensures forall i :: IndexOfName(m, k) == Some(i) ==>
              && (forall j :: 0 <= j < i ==> r[j] == m[j])
              && (forall j :: i < j < |m| ==> r[j - 1] == m[j])
  {
    match IndexOfName(m, k) {
      case None => m
      case Some(i) => m[..i] + m[i + 1..]
    }
  }

  /** The username whose entry the disconnect of socket `s` removes, if any. */
  function Leaver(m: Registry, s: SocketId): (r: Option<Name>)
    ensures r.None? <==> forall j :: 0 <= j < |m| ==> m[j].socket != s
    ensures r.Some? ==> Entry(r.value, s) in m
  {
    match FirstBoundTo(m, s) {
      case None => None
      case Some(i) => Some(m[i].name)
    }
  }

  /** The registry after the disconnect handler of socket `s` has run. */
  function Unbind(m: Registry, s: SocketId): (r: Registry)
    ensures Leaver(m, s).None? ==> r == m
    ensures Leaver(m, s).Some? ==> |r| == |m| - 1
    ensures forall e :: e in r ==> e in m
  {
    match Leaver(m, s) {
      case None => m
      case Some(n) => Delete(m, n)
    }
  }

  /** Under unique keys, looking up the name of an entry finds that entry. */
  lemma LookupEntry(m: Registry, i: nat)
    requires UniqueNames(m) && i < |m|
    ensures IndexOfName(m, m[i].name) == Some(i)
    ensures Lookup(m, m[i].name) == Some(m[i].socket)
  {
    var r := IndexOfName(m, m[i].name);
    assert r.Some?;
  }

  /** Last join wins: after `set(k, v)` the key `k` maps to `v`, every other key
      keeps its binding, and keys stay unique. */
  lemma BindLookup(m: Registry, k: Name, v: SocketId, k': Name)
    requires UniqueNames(m)
    ensures UniqueNames(Bind(m, k, v))
    ensures Lookup(Bind(m, k, v), k') == if k' == k then Some(v) else Lookup(m, k')
  {
    var r := Bind(m, k, v);
    forall i, j | 0 <= i < j < |r| ensures r[i].name != r[j].name {
      if j == |m| {
        assert r[j] == Entry(k, v);
        assert m[i].name != k;
      }
    }
    if k' == k {
      if HasName(m, k) {
        var i :| 0 <= i < |m| && m[i].name == k;
        LookupEntry(m, i);
        assert r[i] == Entry(k, v);
        LookupEntry(r, i);
      } else {
        LookupEntry(r, |m|);
      }
    } else {
      if HasName(m, k') {
        var i :| 0 <= i < |m| && m[i].name == k';
        LookupEntry(m, i);
        LookupEntry(r, i);
      } else {
        assert !HasName(r, k') by {
          forall i | 0 <= i < |r| ensures r[i].name != k' {
            if i == |m| { assert r[i] == Entry(k, v); }
          }
        }
      }
    }
  }

  /** Joining twice under the same name from the same socket leaves one entry, as a single join does. */
  lemma BindIdempotent(m: Registry, k: Name, v: SocketId)
    ensures Bind(Bind(m, k, v), k, v) == Bind(m, k, v)
  {
    var r := Bind(m, k, v);
    match IndexOfName(m, k) {
      case None =>
        assert IndexOfName(r, k) == Some(|m|);
      case Some(i) =>
        assert IndexOfName(r, k) == Some(i);
    }
  }

  /** Removing the entry at position `i` shifts the later entries down by one. */
  lemma RemoveAtShifts(m: Registry, i: nat)
    requires i < |m|
    ensures |m[..i] + m[i + 1..]| == |m| - 1
    ensures forall j :: 0 <= j < i ==> (m[..i] + m[i + 1..])[j] == m[j]
    ensures forall j :: i < j < |m| ==> (m[..i] + m[i + 1..])[j - 1] == m[j]
  {
  }

  /** Removing the entry at position `i` removes exactly its binding. */
  lemma RemoveAtLookup(m: Registry, i: nat, k': Name)
    requires UniqueNames(m) && i < |m|
    ensures UniqueNames(m[..i] + m[i + 1..])
    ensures Lookup(m[..i] + m[i + 1..], k') == if k' == m[i].name then None else Lookup(m, k')
  {
    var r := m[..i] + m[i + 1..];
    RemoveAtShifts(m, i);
    assert UniqueNames(r) by {
      forall a, b | 0 <= a < b < |r| ensures r[a].name != r[b].name {
        var a' := if a < i then a else a + 1;
        var b' := if b < i then b else b + 1;
        assert r[a] == m[a'] && r[b] == m[b'] && a' < b';
      }
    }
    if k' == m[i].name {
      assert !HasName(r, k') by {
        forall j | 0 <= j < |r| ensures r[j].name != k' {
          if j >= i { assert r[j] == m[j + 1]; }
        }
      }
    } else if HasName(m, k') {
      var j :| 0 <= j < |m| && m[j].name == k';
      LookupEntry(m, j);
      var j' := if j < i then j else j - 1;
      assert r[j'] == m[j];
      LookupEntry(r, j');
    } else {
      assert !HasName(r, k') by {
        forall j | 0 <= j < |r| ensures r[j].name != k' {
          if j >= i { assert r[j] == m[j + 1]; }
        }
      }
    }
  }

  /** `delete(k)` removes exactly the binding of `k` and keeps keys unique. */
  lemma DeleteLookup(m: Registry, k: Name, k': Name)
    requires UniqueNames(m)
    ensures UniqueNames(Delete(m, k))
    ensures Lookup(Delete(m, k), k') == if k' == k then None else Lookup(m, k')
  {
    match IndexOfName(m, k) {
      case None =>
      case Some(i) => RemoveAtLookup(m, i, k');
    }
  }

  /** A disconnect removes at most one entry: the first bound to the leaving
      socket. Every other username keeps its binding. */
  lemma UnbindLookup(m: Registry, s: SocketId, k: Name)
    requires UniqueNames(m)
    ensures UniqueNames(Unbind(m, s))
    ensures |Unbind(m, s)| == if Leaver(m, s).Some? then |m| - 1 else |m|
    ensures Lookup(Unbind(m, s), k) == if Leaver(m, s) == Some(k) then None else Lookup(m, k)
  {
    match Leaver(m, s) {
      case None =>
      case Some(n) =>
        assert HasName(m, n);
        DeleteLookup(m, n, k);
    }
  }

  /** The scan that stops at position `i` has found the leaver. */
  lemma UnbindAt(m: Registry, s: SocketId, i: nat)
    requires UniqueNames(m) && i < |m| && m[i].socket == s
    requires forall j :: 0 <= j < i ==> m[j].socket != s
    ensures Leaver(m, s) == Some(m[i].name)
    ensures Unbind(m, s) == Delete(m, m[i].name) && UniqueNames(Delete(m, m[i].name))
  {
    DeleteLookup(m, m[i].name, m[i].name);
  }

  /** UnbindLookup for every name at once. */
  lemma UnbindLookupAll(m: Registry, s: SocketId)
    requires UniqueNames(m)
    ensures forall k :: Lookup(Unbind(m, s), k) == if Leaver(m, s) == Some(k) then None else Lookup(m, k)
  {
    forall k ensures Lookup(Unbind(m, s), k) == if Leaver(m, s) == Some(k) then None else Lookup(m, k) {
      UnbindLookup(m, s, k);
    }
  }

  /** A disconnect only ever removes a binding to the leaving socket: a binding
      of any name to another socket, such as one made by a later join, survives. */
  lemma UnbindKeepsOtherSockets(m: Registry, s: SocketId, k: Name, v: SocketId)
    requires UniqueNames(m)
    requires Lookup(m, k) == Some(v) && v != s
    ensures Lookup(Unbind(m, s), k) == Some(v)
  {
    UnbindLookup(m, s, k);
  }

  /** Only the first entry bound to the socket goes: a later entry bound to it stays. */
  lemma UnbindKeepsLaterEntries(m: Registry, s: SocketId, i: nat, j: nat)
    requires UniqueNames(m)
    requires i < j < |m| && m[i].socket == s && m[j].socket == s
    ensures Lookup(Unbind(m, s), m[j].name) == Some(s)
  {
    var f := FirstBoundTo(m, s);
    assert f.Some? && f.value <= i;
    UnbindLookup(m, s, m[j].name);
    LookupEntry(m, j);
    assert m[f.value].name != m[j].name;
  }

  /** If socket `a` joins as `n`, then socket `b` joins as `n`, the disconnect of
      `a` leaves `n` bound to `b` and reports no leaver named `n`. */
  lemma SupersededDisconnect(m: Registry, n: Name, a: SocketId, b: SocketId)
    requires UniqueNames(m) && a != b
    ensures Lookup(Unbind(Bind(Bind(m, n, a), n, b), a), n) == Some(b)
    ensures Leaver(Bind(Bind(m, n, a), n, b), a) != Some(n)
  {
    var m1 := Bind(m, n, a);
    BindLookup(m, n, a, n);
    var m2 := Bind(m1, n, b);
    BindLookup(m1, n, b, n);
    UnbindKeepsOtherSockets(m2, a, n, b);
    UnbindLookup(m2, a, n);
  }
}

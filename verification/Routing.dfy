/** Who is connected where and who talks to whom: the maps behind the request handler (HandleServerV2.cpp). Each
    message's work on the maps is one atomic step. */
module Routing {
  import opened Text
  import opened WireProtocol

  datatype Routes = Routes(
    names: map<string, int>,      // name_sock_map: a user's connection
    targets: map<string, string>, // from_to_map: whom a user talks to
    groups: map<int, set<int>>    // group_map: the connections in a group
  )

  datatype Event =
    | LoggedIn(name: string, conn: int)     // by password or by cookie
    | Targeted(from: string, target: string)
    | Said(conn: int, text: string, order: seq<string>) // order: in which name_sock_map happens to be iterated
    | Joined(conn: int, number: int)
    | SaidToGroup(conn: int, groupOrder: seq<int>, stale: int)
    | Closed(conn: int)                     // a worker found the connection closed, which no map records

  /** `m[key]` of an `unordered_map` inserts a default when the key is missing. */
  function Touch<K, V>(m: map<K, V>, key: K, default: V): map<K, V> {
    if key in m then m else m[key := default]
  }

  /** A map is iterated over each of its keys once, in no particular order. */
  ghost predicate IsOrderOf<K(!new), V>(order: seq<K>, m: map<K, V>) {
    && (forall k :: k in order <==> k in m)
    && (forall i, j :: 0 <= i < j < |order| ==> order[i] != order[j])
  }

  ghost predicate SameExcept<K(!new), V>(m: map<K, V>, m': map<K, V>, key: K) {
    forall k :: k != key ==> (k in m' <==> k in m) && (k in m ==> m'[k] == m[k])
  }

  /** The first name in iteration order whose connection is `conn`. */
  function FirstOwner(order: seq<string>, names: map<string, int>, conn: int): Option<string> {
    if order == [] then None
    else if order[0] in names && names[order[0]] == conn then Some(order[0])
    else FirstOwner(order[1..], names, conn)
  }

  function SaidMaps(m: Routes, owner: Option<string>): Routes {
    match owner
    case None => m
    case Some(u) =>
      var targets := Touch(m.targets, u, "");
      m.(names := Touch(m.names, targets[u], 0), targets := targets)
  }

  /** What is sent, and on which connection. */
  function SaidSends(m: Routes, owner: Option<string>, text: string): (int, string) {
    match owner
    case None => (if "" in m.names then m.names[""] else -1, "[]:" + text)
    case Some(u) =>
      var m' := SaidMaps(m, owner);
      (m'.names[m'.targets[u]], "[" + u + "]:" + text)
  }

  function Apply(m: Routes, e: Event): Routes {
    match e
    case LoggedIn(name, conn) => m.(names := m.names[name := conn])
    case Targeted(from, target) => if target in m.names then m.(targets := m.targets[from := target]) else m
    case Said(conn, text, order) => SaidMaps(m, FirstOwner(order, m.names, conn))
    case Joined(conn, number) =>
      m.(groups := m.groups[number := (if number in m.groups then m.groups[number] else {}) + {conn}])
    case SaidToGroup(conn, groupOrder, stale) =>
      m.(groups := Touch(m.groups, GroupOf(groupOrder, m.groups, conn, stale), {}))
    case Closed(_) => m
  }

  /** The first group in iteration order that the connection is in. */
  function FirstGroup(order: seq<int>, groups: map<int, set<int>>, conn: int): Option<int> {
    if order == [] then None
    else if order[0] in groups && conn in groups[order[0]] then Some(order[0])
    else FirstGroup(order[1..], groups, conn)
  }

  /** `group_num` in the broadcast branch: `stale`, the value it happens to have, when no group is found. */
  function GroupOf(order: seq<int>, groups: map<int, set<int>>, conn: int, stale: int): int {
    var group := FirstGroup(order, groups, conn);
    if group.Some? then group.value else stale
  }

  /** `sent` is what goes out for `message` said to a group by `conn`. */
  ghost predicate GroupSends(m: Routes, conn: int, groupOrder: seq<int>, stale: int, message: string,
                             sent: seq<(int, string)>) {
    var number := GroupOf(groupOrder, m.groups, conn, stale);
    IsBroadcast(sent, Touch(m.groups, number, {})[number] - {conn}, message)
  }

  class Router {
    var names: map<string, int>
    var targets: map<string, string>
    var groups: map<int, set<int>>

    function Maps(): Routes
      reads this
    {
      Routes(names, targets, groups)
    }

    constructor ()
      ensures Maps() == Routes(map[], map[], map[])
    {
      names, targets, groups := map[], map[], map[];
    }

    method LogIn(name: string, conn: int)
      modifies this
      ensures Maps() == Apply(old(Maps()), LoggedIn(name, conn))
      ensures name in names && names[name] == conn && SameExcept(old(names), names, name)
      ensures targets == old(targets) && groups == old(groups)
    {
      names := names[name := conn];
    }

    method SetTarget(from: string, target: string)
      modifies this
      ensures Maps() == Apply(old(Maps()), Targeted(from, target))
      ensures names == old(names) && groups == old(groups) && SameExcept(old(targets), targets, from)
      ensures if target in names then from in targets && targets[from] == target else targets == old(targets)
    {
      if target in names {
        targets := targets[from := target];
      }
    }

    /** The content branch. */
    method Say(conn: int, text: string, order: seq<string>) returns (sent: (int, string))
      requires IsOrderOf(order, names)
      modifies this
      ensures Maps() == Apply(old(Maps()), Said(conn, text, order))
      ensures sent == SaidSends(old(Maps()), FirstOwner(order, old(names), conn), text)
    {
      var loginName, targetName, targetConn := "", "", -1;
      var i := 0;
      while i < |order|
        invariant i <= |order| && FirstOwner(order[i..], names, conn) == FirstOwner(order, names, conn)
        invariant unchanged(this) && (loginName, targetName, targetConn) == ("", "", -1)
      {
        assert order[i] in order && order[i..][1..] == order[i + 1..];
        if names[order[i]] == conn {
          loginName := order[i];
          targets := Touch(targets, loginName, "");
          targetName := targets[loginName];
          names := Touch(names, targetName, 0);
          targetConn := names[targetName];
          break;
        }
        i := i + 1;
      }
      if targetConn == -1 {
        if targetName in names {
          targetConn := names[targetName];
        }
      }
      assert "[" + "" + "]:" == "[]:";
      sent := (targetConn, "[" + loginName + "]:" + text);
    }

    method JoinGroup(conn: int, number: int)
      modifies this`groups
      ensures Maps() == Apply(old(Maps()), Joined(conn, number))
      ensures number in groups && SameExcept(old(groups), groups, number)
      ensures forall c :: c in groups[number] <==> c == conn || (number in old(groups) && c in old(groups)[number])
    {
      groups := Touch(groups, number, {});
      groups := groups[number := groups[number] + {conn}];
    }

    /** The broadcast branch. */
    method SayToGroup(conn: int, text: string, order: seq<string>, groupOrder: seq<int>, stale: int)
      returns (sent: seq<(int, string)>)
      requires IsOrderOf(order, names) && IsOrderOf(groupOrder, groups)
      modifies this`groups
      ensures Maps() == Apply(old(Maps()), SaidToGroup(conn, groupOrder, stale))
      ensures var owner := FirstOwner(order, names, conn);
        GroupSends(old(Maps()), conn, groupOrder, stale, "[" + (if owner.Some? then owner.value else "") + "]:" + text, sent)
    {
      var loginName, groupNum := "", stale;
      var i := 0;
      while i < |order|
        invariant i <= |order| && FirstOwner(order[i..], names, conn) == FirstOwner(order, names, conn) && loginName == ""
        invariant unchanged(this)
      {
        assert order[i] in order && order[i..][1..] == order[i + 1..];
        if names[order[i]] == conn {
          loginName := order[i];
          break;
        }
        i := i + 1;
      }
      i := 0;
      while i < |groupOrder|
        invariant i <= |groupOrder| && groupNum == stale && unchanged(this)
        invariant FirstGroup(groupOrder[i..], groups, conn) == FirstGroup(groupOrder, groups, conn)
      {
        assert groupOrder[i] in groupOrder && groupOrder[i..][1..] == groupOrder[i + 1..];
        if conn in groups[groupOrder[i]] {
          groupNum := groupOrder[i];
          break;
        }
        i := i + 1;
      }
      groups := Touch(groups, groupNum, {});
      sent := Broadcast(groups[groupNum], conn, "[" + loginName + "]:" + text);
    }
  }

  /** One message to every recipient, in the order of their descriptors. */
  ghost predicate IsBroadcast(sent: seq<(int, string)>, recipients: set<int>, message: string) {
    && (forall k :: 0 <= k < |sent| ==> sent[k].0 in recipients && sent[k].1 == message)
    && (forall fd :: fd in recipients ==> (fd, message) in sent)
    && (forall j, k :: 0 <= j < k < |sent| ==> sent[j].0 < sent[k].0)
  }

  lemma OneMoreRecipient(sent: seq<(int, string)>, recipients: set<int>, message: string, fd: int)
    requires IsBroadcast(sent, recipients, message) && forall r :: r in recipients ==> r < fd
    ensures IsBroadcast(sent + [(fd, message)], recipients + {fd}, message)
  {
    var more := sent + [(fd, message)];
    assert more[|sent|] == (fd, message);
    assert forall m :: m in sent ==> m in more;
  }

  method Broadcast(members: set<int>, conn: int, message: string) returns (sent: seq<(int, string)>)
    ensures IsBroadcast(sent, members - {conn}, message)
  {
    sent := [];
    var rest := members;
    ghost var reached := {};
    while rest != {}
      invariant forall v, r :: v in reached && r in rest ==> v < r
      invariant reached + (rest - {conn}) == members - {conn}
      invariant IsBroadcast(sent, reached, message)
      decreases rest
    {
      var i := Least(rest);
      if i != conn {
        OneMoreRecipient(sent, reached, message, i);
        sent := sent + [(i, message)];
        reached := reached + {i};
      }
      rest := rest - {i};
    }
  }

  lemma Inhabited(s: set<int>)
    ensures s == {} || exists x :: x in s
  {
    if forall x :: x !in s {
      assert s == {};
    }
  }

  /** The first element of an ordered set. */
  method Least(s: set<int>) returns (least: int)
    requires s != {}
    ensures least in s && forall r :: r in s ==> least <= r
  {
    Inhabited(s);
    least :| least in s;
    var rest := s - {least};
    while rest != {}
      invariant least in s && rest <= s && forall r :: r in s && r !in rest ==> least <= r
      decreases rest
    {
      Inhabited(rest);
      var x :| x in rest;
      if x < least {
        least := x;
      }
      rest := rest - {x};
    }
  }

  // Over every run

  ghost function After(h: seq<Event>): Routes {
    if h == [] then Routes(map[], map[], map[]) else Apply(After(h[..|h| - 1]), h[|h| - 1])
  }

  /** Whom every user in from_to_map talks to is known, even after default insertions. */
  lemma {:induction false} TargetsAreKnown(h: seq<Event>, u: string)
    ensures u in After(h).targets ==> After(h).targets[u] in After(h).names
  {
    if h != [] {
      TargetsAreKnown(h[..|h| - 1], u);
    }
  }

  /** The connection of the last login. */
  function LatestConn(h: seq<Event>, u: string): Option<int> {
    if h == [] then None
    else
      var e := h[|h| - 1];
      if e.LoggedIn? && e.name == u then Some(e.conn) else LatestConn(h[..|h| - 1], u)
  }

  /** The last target that was connected when it was chosen. */
  ghost function LastTarget(h: seq<Event>, u: string): Option<string> {
    if h == [] then None
    else
      var e := h[|h| - 1];
      if e.Targeted? && e.from == u && e.target in After(h[..|h| - 1]).names then Some(e.target)
      else LastTarget(h[..|h| - 1], u)
  }

  /** The maps remember exactly the latest connections and the latest accepted targets; all that default insertion
      ever adds is the empty name, at descriptor zero, and the empty target. */
  lemma {:induction false} MapsRemember(h: seq<Event>, u: string)
    ensures var m := After(h);
      && (LatestConn(h, u).Some? ==> u in m.names && m.names[u] == LatestConn(h, u).value)
      && (LatestConn(h, u).None? && u in m.names ==> u == "" && m.names[u] == 0)
      && (LastTarget(h, u).Some? ==> u in m.targets && m.targets[u] == LastTarget(h, u).value)
      && (LastTarget(h, u).None? && u in m.targets ==> m.targets[u] == "")
  {
    if h != [] {
      var before := h[..|h| - 1];
      MapsRemember(before, u);
      var e := h[|h| - 1];
      if e.Said? {
        var owner := FirstOwner(e.order, After(before).names, e.conn);
        if owner.Some? {
          TargetsAreKnown(before, owner.value);
        }
      }
    }
  }

  lemma {:induction false} FirstOwnerIs(order: seq<string>, names: map<string, int>, conn: int, u: string)
    requires u in order && u in names && names[u] == conn
    requires forall n :: n in names && names[n] == conn ==> n == u
    ensures FirstOwner(order, names, conn) == Some(u)
  {
    if !(order[0] in names && names[order[0]] == conn) {
      FirstOwnerIs(order[1..], names, conn, u);
    }
  }

  /** `u`'s latest login came over `conn`. Once inserted by default, the empty name stands for descriptor zero without
      any login. */
  ghost predicate StandsFor(h: seq<Event>, u: string, conn: int) {
    LatestConn(h, u) == Some(conn) || (u == "" && conn == 0 && LatestConn(h, u).None? && "" in After(h).names)
  }

  lemma NamesStandFor(h: seq<Event>, u: string, conn: int)
    ensures u in After(h).names && After(h).names[u] == conn <==> StandsFor(h, u, conn)
  {
    MapsRemember(h, u);
  }

  /** `u` is the one user behind `conn`. */
  ghost predicate SoleUser(h: seq<Event>, conn: int, u: string) {
    StandsFor(h, u, conn) && forall n :: StandsFor(h, n, conn) ==> n == u
  }

  lemma SoleUserIsFound(h: seq<Event>, conn: int, u: string, order: seq<string>)
    requires SoleUser(h, conn, u) && IsOrderOf(order, After(h).names)
    ensures FirstOwner(order, After(h).names, conn) == Some(u)
  {
    var names := After(h).names;
    NamesStandFor(h, u, conn);
    forall n | n in names && names[n] == conn
      ensures n == u
    {
      NamesStandFor(h, n, conn);
    }
    FirstOwnerIs(order, names, conn, u);
  }

  lemma {:induction false} SomeOrder<K(!new)>(keys: set<K>) returns (order: seq<K>)
    ensures forall k :: k in order <==> k in keys
    ensures forall i, j :: 0 <= i < j < |order| ==> order[i] != order[j]
  {
    if keys == {} {
      order := [];
    } else {
      var k :| k in keys;
      var rest := SomeOrder(keys - {k});
      order := [k] + rest;
    }
  }

  /** Any key may come first. */
  lemma OrderFrom<K(!new), V>(m: map<K, V>, k: K) returns (order: seq<K>)
    requires k in m
    ensures IsOrderOf(order, m) && order[0] == k
  {
    var rest := SomeOrder(m.Keys - {k});
    order := [k] + rest;
  }

  lemma {:induction false} OwnerOwns(order: seq<string>, names: map<string, int>, conn: int)
    ensures match FirstOwner(order, names, conn)
      case Some(u) => u in order && u in names && names[u] == conn
      case None => forall n :: n in order && n in names ==> names[n] != conn
  {
    if order != [] {
      OwnerOwns(order[1..], names, conn);
    }
  }

  lemma {:induction false} OwnerIsFirst(order: seq<string>, names: map<string, int>, conn: int, i: nat)
    requires i < |order| && order[i] in names && names[order[i]] == conn
    requires forall j :: 0 <= j < i && order[j] in names ==> names[order[j]] != conn
    ensures FirstOwner(order, names, conn) == Some(order[i])
  {
    if i > 0 {
      OwnerIsFirst(order[1..], names, conn, i - 1);
    }
  }

  /** In whatever order the map is iterated, `u` is the first name found to own `conn`. */
  ghost predicate AlwaysFound(names: map<string, int>, conn: int, u: string) {
    forall order :: IsOrderOf(order, names) ==> FirstOwner(order, names, conn) == Some(u)
  }

  lemma FoundMeansSole(h: seq<Event>, conn: int, u: string)
    requires AlwaysFound(After(h).names, conn, u)
    ensures SoleUser(h, conn, u)
  {
    var names := After(h).names;
    var order := SomeOrder(names.Keys);
    assert IsOrderOf(order, names);
    OwnerOwns(order, names, conn);
    NamesStandFor(h, u, conn);
    forall n | StandsFor(h, n, conn)
      ensures n == u
    {
      NamesStandFor(h, n, conn);
      var from := OrderFrom(names, n);
      assert FirstOwner(from, names, conn) == Some(n);
    }
  }

  /** The handler is certain to find `u` behind a connection, however the map is iterated, if and only if `u` is the
      one user behind it. */
  lemma OwnerIsCertainIff(h: seq<Event>, conn: int, u: string)
    ensures AlwaysFound(After(h).names, conn, u) <==> SoleUser(h, conn, u)
  {
    if SoleUser(h, conn, u) {
      forall order | IsOrderOf(order, After(h).names)
        ensures FirstOwner(order, After(h).names, conn) == Some(u)
      {
        SoleUserIsFound(h, conn, u, order);
      }
    } else if AlwaysFound(After(h).names, conn, u) {
      FoundMeansSole(h, conn, u);
    }
  }

  /** When a descriptor is reused, a line can go out under either of two names. */
  lemma ReuseIsAmbiguous()
    ensures var names := After([LoggedIn("ann", 7), LoggedIn("bob", 7)]).names;
      && IsOrderOf(["ann", "bob"], names) && FirstOwner(["ann", "bob"], names, 7) == Some("ann")
      && IsOrderOf(["bob", "ann"], names) && FirstOwner(["bob", "ann"], names, 7) == Some("bob")
  {
    var h := [LoggedIn("ann", 7), LoggedIn("bob", 7)];
    assert h[..1] == [LoggedIn("ann", 7)] && h[..1][..0] == [];
    assert After(h).names == map["ann" := 7, "bob" := 7];
  }

  /** Whom `u` talks to: the last target accepted, or the empty name. */
  ghost function TargetOf(h: seq<Event>, u: string): string {
    if LastTarget(h, u).Some? then LastTarget(h, u).value else ""
  }

  /** The latest connection of that target; descriptor zero if it has never logged in. */
  ghost function ConnOfTarget(h: seq<Event>, u: string): int {
    if LatestConn(h, TargetOf(h, u)).Some? then LatestConn(h, TargetOf(h, u)).value else 0
  }

  /** What goes out for a line from `conn`. Whoever is found behind `conn` last logged in over it, except that the
      empty name may stand for descriptor zero without a login. The line goes, under that user's name, to the latest
      connection of the last target accepted; without any, to whatever the empty name stands for, which is descriptor
      zero unless someone has logged in under it. When nobody is found nobody's latest login came over `conn`. */
  lemma SaidIsDelivered(h: seq<Event>, conn: int, text: string, order: seq<string>)
    requires IsOrderOf(order, After(h).names)
    ensures var names, owner := After(h).names, FirstOwner(order, After(h).names, conn);
      match owner
      case Some(u) =>
        && StandsFor(h, u, conn)
        && SaidSends(After(h), owner, text) == (ConnOfTarget(h, u), "[" + u + "]:" + text)
      case None =>
        && (forall n :: !StandsFor(h, n, conn))
        && SaidSends(After(h), owner, text) ==
             (if "" !in names then -1 else if LatestConn(h, "").Some? then LatestConn(h, "").value else 0, "[]:" + text)
  {
    OwnerOwns(order, After(h).names, conn);
    match FirstOwner(order, After(h).names, conn)
    case Some(u) =>
      NamesStandFor(h, u, conn);
      SentByOwner(h, u, text);
    case None =>
      MapsRemember(h, "");
      forall n
        ensures !StandsFor(h, n, conn)
      {
        NamesStandFor(h, n, conn);
      }
  }

  lemma SentByOwner(h: seq<Event>, u: string, text: string)
    ensures SaidSends(After(h), Some(u), text) == (ConnOfTarget(h, u), "[" + u + "]:" + text)
  {
    MapsRemember(h, u);
    TargetsAreKnown(h, u);
    MapsRemember(h, TargetOf(h, u));
  }

  /** Looking up inserts: whoever is found to say something has a target from then on, and that target a connection. */
  lemma SaidInserts(h: seq<Event>, conn: int, text: string, order: seq<string>)
    ensures var owner, m' := FirstOwner(order, After(h).names, conn), After(h + [Said(conn, text, order)]);
      && (forall u :: u in m'.targets <==> u in After(h).targets || owner == Some(u))
      && (forall n :: n in m'.names <==> n in After(h).names || (owner.Some? && n == TargetOf(h, owner.value)))
  {
    AfterNext(h, Said(conn, text, order));
    var owner := FirstOwner(order, After(h).names, conn);
    if owner.Some? {
      MapsRemember(h, owner.value);
    }
  }

  /** Group membership over every run: a connection is in a group exactly when it has joined it. Nothing removes it. */
  lemma {:induction false} GroupsRemember(h: seq<Event>, number: int, conn: int)
    ensures var groups := After(h).groups;
      (number in groups && conn in groups[number]) <==> Joined(conn, number) in h
  {
    if h != [] {
      var before, e := h[..|h| - 1], h[|h| - 1];
      GroupsRemember(before, number, conn);
      assert h == before + [e];
    }
  }

  lemma {:induction false} FirstGroupIs(order: seq<int>, groups: map<int, set<int>>, conn: int, number: int)
    requires number in order && number in groups && conn in groups[number]
    requires forall g :: g in groups && conn in groups[g] ==> g == number
    ensures FirstGroup(order, groups, conn) == Some(number)
  {
    if order[0] != number {
      FirstGroupIs(order[1..], groups, conn, number);
    }
  }

  lemma {:induction false} GroupHolds(order: seq<int>, groups: map<int, set<int>>, conn: int)
    ensures match FirstGroup(order, groups, conn)
      case Some(g) => g in order && g in groups && conn in groups[g]
      case None => forall g :: g in order && g in groups ==> conn !in groups[g]
  {
    if order != [] {
      GroupHolds(order[1..], groups, conn);
    }
  }

  lemma {:induction false} GroupIsFirst(order: seq<int>, groups: map<int, set<int>>, conn: int, i: nat)
    requires i < |order| && order[i] in groups && conn in groups[order[i]]
    requires forall j :: 0 <= j < i && order[j] in groups ==> conn !in groups[order[j]]
    ensures FirstGroup(order, groups, conn) == Some(order[i])
  {
    if i > 0 {
      GroupIsFirst(order[1..], groups, conn, i - 1);
    }
  }

  /** Saying something to a group makes the group that is used, when there is none, and changes no members. */
  lemma GroupIsMade(h: seq<Event>, conn: int, groupOrder: seq<int>, stale: int)
    ensures var e := SaidToGroup(conn, groupOrder, stale);
      var number, groups := GroupOf(groupOrder, After(h).groups, conn, stale), After(h + [e]).groups;
      && (forall g :: g in groups <==> g in After(h).groups || g == number)
      && (forall g :: g in groups ==> groups[g] == if g in After(h).groups then After(h).groups[g] else {})
  {
    AfterNext(h, SaidToGroup(conn, groupOrder, stale));
  }

  /** The connection has joined this group and no other. */
  ghost predicate SoleGroup(h: seq<Event>, conn: int, number: int) {
    Joined(conn, number) in h && forall g :: Joined(conn, g) in h ==> g == number
  }

  /** In whatever order the map is iterated, `number` is the first group found to hold `conn`. */
  ghost predicate AlwaysIn(groups: map<int, set<int>>, conn: int, number: int) {
    forall order :: IsOrderOf(order, groups) ==> FirstGroup(order, groups, conn) == Some(number)
  }

  lemma SoleGroupIsFound(h: seq<Event>, conn: int, number: int, order: seq<int>)
    requires SoleGroup(h, conn, number) && IsOrderOf(order, After(h).groups)
    ensures FirstGroup(order, After(h).groups, conn) == Some(number)
  {
    var groups := After(h).groups;
    GroupsRemember(h, number, conn);
    forall g | g in groups && conn in groups[g]
      ensures g == number
    {
      GroupsRemember(h, g, conn);
    }
    FirstGroupIs(order, groups, conn, number);
  }

  lemma AlwaysInMeansSole(h: seq<Event>, conn: int, number: int)
    requires AlwaysIn(After(h).groups, conn, number)
    ensures SoleGroup(h, conn, number)
  {
    var groups := After(h).groups;
    var order := SomeOrder(groups.Keys);
    assert IsOrderOf(order, groups);
    GroupHolds(order, groups, conn);
    GroupsRemember(h, number, conn);
    forall g | Joined(conn, g) in h
      ensures g == number
    {
      GroupsRemember(h, g, conn);
      var from := OrderFrom(groups, g);
      assert FirstGroup(from, groups, conn) == Some(g);
    }
  }

  /** The handler is certain to find a group for a connection, however the map is iterated, if and only if that is the
      one group the connection has joined. */
  lemma GroupIsCertainIff(h: seq<Event>, conn: int, number: int)
    ensures AlwaysIn(After(h).groups, conn, number) <==> SoleGroup(h, conn, number)
  {
    if SoleGroup(h, conn, number) {
      forall order | IsOrderOf(order, After(h).groups)
        ensures FirstGroup(order, After(h).groups, conn) == Some(number)
      {
        SoleGroupIsFound(h, conn, number, order);
      }
    } else if AlwaysIn(After(h).groups, conn, number) {
      AlwaysInMeansSole(h, conn, number);
    }
  }

  /** The group found is one that the sender has joined, or the stale number when there is none. The message goes, once
      each, to exactly those connections that ever joined that group, except the sender's own. */
  lemma SaidToGroupIsDelivered(h: seq<Event>, conn: int, groupOrder: seq<int>, stale: int, message: string,
                               sent: seq<(int, string)>)
    requires IsOrderOf(groupOrder, After(h).groups) && GroupSends(After(h), conn, groupOrder, stale, message, sent)
    ensures var number := GroupOf(groupOrder, After(h).groups, conn, stale);
      && (Joined(conn, number) in h || (number == stale && forall g :: Joined(conn, g) !in h))
      && (forall to, text :: (to, text) in sent <==> text == message && to != conn && Joined(to, number) in h)
    ensures forall j, k :: 0 <= j < k < |sent| ==> sent[j].0 < sent[k].0
  {
    var number := GroupOf(groupOrder, After(h).groups, conn, stale);
    GroupHolds(groupOrder, After(h).groups, conn);
    forall g
      ensures g in After(h).groups && conn in After(h).groups[g] <==> Joined(conn, g) in h
    {
      GroupsRemember(h, g, conn);
    }
    forall to, text
      ensures (to, text) in sent <==> text == message && to != conn && Joined(to, number) in h
    {
      GroupsRemember(h, number, to);
      if (to, text) in sent {
        var k :| 0 <= k < |sent| && sent[k] == (to, text);
      }
    }
  }

  // Closed connections stay in the maps

  /** The last thing heard of `conn` and the group is that it joined, not that it was closed. */
  predicate Current(h: seq<Event>, conn: int, number: int) {
    h != [] &&
    var e := h[|h| - 1];
    e == Joined(conn, number) || (e != Closed(conn) && Current(h[..|h| - 1], conn, number))
  }

  /** The connection was closed after it had joined the group, and no connection with its descriptor has joined since. */
  ghost predicate LeftBehind(h: seq<Event>, conn: int, number: int) {
    exists i, j :: 0 <= i < j < |h| && h[i] == Joined(conn, number) && h[j] == Closed(conn)
                   && Joined(conn, number) !in h[j..]
  }

  lemma {:induction false} CurrentOrLeftBehind(h: seq<Event>, conn: int, number: int)
    ensures Current(h, conn, number) ==> Joined(conn, number) in h && !LeftBehind(h, conn, number)
    ensures Joined(conn, number) in h && !Current(h, conn, number) ==> LeftBehind(h, conn, number)
  {
    if h != [] {
      var before, e, last := h[..|h| - 1], h[|h| - 1], |h| - 1;
      assert h == before + [e];
      CurrentOrLeftBehind(before, conn, number);
      if e != Joined(conn, number) && e != Closed(conn) {
        LeftBehindKeeps(before, e, conn, number);
      } else if e == Closed(conn) && Joined(conn, number) in h {
        var i :| 0 <= i < |h| && h[i] == Joined(conn, number);
        assert h[last..] == [e];
      } else if e == Joined(conn, number) {
        assert forall j :: 0 <= j < |h| ==> h[j..][last - j] == e;
      }
    }
  }

  lemma LeftBehindKeeps(before: seq<Event>, e: Event, conn: int, number: int)
    requires e != Joined(conn, number) && e != Closed(conn)
    ensures LeftBehind(before + [e], conn, number) <==> LeftBehind(before, conn, number)
  {
    var h := before + [e];
    forall j | 0 <= j < |before|
      ensures Joined(conn, number) in h[j..] <==> Joined(conn, number) in before[j..]
    {
      assert h[j..] == before[j..] + [e];
    }
    if i, j :| 0 <= i < j < |before| && before[i] == Joined(conn, number) && before[j] == Closed(conn)
               && Joined(conn, number) !in before[j..] {
      assert h[i] == Joined(conn, number) && h[j] == Closed(conn);
    }
    if i, j :| 0 <= i < j < |h| && h[i] == Joined(conn, number) && h[j] == Closed(conn)
               && Joined(conn, number) !in h[j..] {
      assert before[i] == Joined(conn, number) && before[j] == Closed(conn);
    }
  }

  /** A message to the group goes to current members alone if and only if every other connection that was closed after
      joining the group has joined it again. */
  lemma GroupLineStaysCurrentIff(h: seq<Event>, conn: int, groupOrder: seq<int>, stale: int, message: string,
                                 sent: seq<(int, string)>)
    requires IsOrderOf(groupOrder, After(h).groups) && GroupSends(After(h), conn, groupOrder, stale, message, sent)
    ensures var number := GroupOf(groupOrder, After(h).groups, conn, stale);
      (forall to :: (to, message) in sent ==> Current(h, to, number)) <==>
      (forall c :: c != conn ==> !LeftBehind(h, c, number))
  {
    var number := GroupOf(groupOrder, After(h).groups, conn, stale);
    SaidToGroupIsDelivered(h, conn, groupOrder, stale, message, sent);
    forall c
      ensures Joined(c, number) in h ==> (Current(h, c, number) <==> !LeftBehind(h, c, number))
      ensures LeftBehind(h, c, number) ==> Joined(c, number) in h
    {
      CurrentOrLeftBehind(h, c, number);
    }
    forall c | c != conn && LeftBehind(h, c, number)
      ensures (c, message) in sent && !Current(h, c, number)
    {
    }
  }

  lemma AfterNext(h: seq<Event>, e: Event)
    ensures After(h + [e]) == Apply(After(h), e)
  {
    assert (h + [e])[..|h|] == h;
  }

  /** Connection 7 is closed and still hears what 8 says. */
  lemma ClosedStillHears(stale: int, message: string)
    ensures var h := [Joined(7, 1), Joined(8, 1), Closed(7)];
      && IsOrderOf([1], After(h).groups) && GroupSends(After(h), 8, [1], stale, message, [(7, message)])
      && !Current(h, 7, 1)
  {
    var h1 := [] + [Joined(7, 1)];
    var h2 := h1 + [Joined(8, 1)];
    var h3 := h2 + [Closed(7)];
    AfterNext([], Joined(7, 1));
    AfterNext(h1, Joined(8, 1));
    AfterNext(h2, Closed(7));
    assert h3 == [Joined(7, 1), Joined(8, 1), Closed(7)];
    assert After(h3).groups[1] == {7, 8};
  }

  /** The connection of the last login, as long as it has not been closed. */
  ghost function LiveConn(h: seq<Event>, u: string): Option<int> {
    if h == [] then None
    else
      var e, before := h[|h| - 1], LiveConn(h[..|h| - 1], u);
      if e.LoggedIn? && e.name == u then Some(e.conn)
      else if e.Closed? && before == Some(e.conn) then None
      else before
  }

  predicate IsLatestLogin(h: seq<Event>, i: int, u: string) {
    0 <= i < |h| && h[i].LoggedIn? && h[i].name == u && forall k :: i < k < |h| ==> !(h[k].LoggedIn? && h[k].name == u)
  }

  /** The descriptor of the latest login was closed after it. */
  ghost predicate ClosedSince(h: seq<Event>, u: string) {
    exists i :: IsLatestLogin(h, i, u) && Closed(h[i].conn) in h[i..]
  }

  lemma {:induction false} LiveSince(h: seq<Event>, i: nat, u: string)
    requires IsLatestLogin(h, i, u)
    ensures LatestConn(h, u) == Some(h[i].conn)
    ensures LiveConn(h, u) == if Closed(h[i].conn) in h[i..] then None else Some(h[i].conn)
    decreases |h|
  {
    var before, e := h[..|h| - 1], h[|h| - 1];
    if i == |h| - 1 {
      assert h[i..] == [e];
    } else {
      LiveSince(before, i, u);
      assert h[i..] == before[i..] + [e];
    }
  }

  lemma {:induction false} LatestLogin(h: seq<Event>, u: string) returns (i: int)
    ensures if LatestConn(h, u).Some? then IsLatestLogin(h, i, u)
            else LiveConn(h, u).None? && forall k :: 0 <= k < |h| ==> !(h[k].LoggedIn? && h[k].name == u)
  {
    i := |h| - 1;
    if h != [] && !(h[i].LoggedIn? && h[i].name == u) {
      i := LatestLogin(h[..i], u);
    }
  }

  lemma LiveUnlessClosed(h: seq<Event>, u: string)
    ensures LatestConn(h, u).None? ==> LiveConn(h, u).None? && !ClosedSince(h, u)
    ensures LatestConn(h, u).Some? ==> LiveConn(h, u) == if ClosedSince(h, u) then None else LatestConn(h, u)
  {
    var i := LatestLogin(h, u);
    if LatestConn(h, u).Some? {
      LiveSince(h, i, u);
      if ClosedSince(h, u) {
        var k :| IsLatestLogin(h, k, u) && Closed(h[k].conn) in h[k..];
        LiveSince(h, k, u);
      }
    }
  }

  /** A private line reaches the target's own connection if and only if the target has logged in and that descriptor
      has not been closed since the latest login. */
  lemma ReachesTargetIff(h: seq<Event>, u: string, text: string)
    ensures var v := TargetOf(h, u);
      Some(SaidSends(After(h), Some(u), text).0) == LiveConn(h, v) <==> LatestConn(h, v).Some? && !ClosedSince(h, v)
  {
    SentByOwner(h, u, text);
    LiveUnlessClosed(h, TargetOf(h, u));
  }

  lemma ConnNext(h: seq<Event>, e: Event, u: string)
    ensures LatestConn(h + [e], u) == if e.LoggedIn? && e.name == u then Some(e.conn) else LatestConn(h, u)
    ensures LiveConn(h + [e], u) ==
      if e.LoggedIn? && e.name == u then Some(e.conn)
      else if e.Closed? && LiveConn(h, u) == Some(e.conn) then None else LiveConn(h, u)
  {
    assert (h + [e])[..|h|] == h;
  }

  lemma TargetNext(h: seq<Event>, e: Event, u: string)
    ensures LastTarget(h + [e], u) ==
      if e.Targeted? && e.from == u && e.target in After(h).names then Some(e.target) else LastTarget(h, u)
  {
    assert (h + [e])[..|h|] == h;
  }

  /** Bob's connection is closed and its descriptor goes to carol, who now gets what ann says to bob. */
  lemma StrangerGetsTheLine(text: string)
    ensures var h := [LoggedIn("ann", 7), LoggedIn("bob", 8), Targeted("ann", "bob"), Closed(8), LoggedIn("carol", 8)];
      && TargetOf(h, "ann") == "bob" && LiveConn(h, "bob") == None && LiveConn(h, "carol") == Some(8)
      && SaidSends(After(h), Some("ann"), text) == (8, "[ann]:" + text)
  {
    var h := [LoggedIn("ann", 7), LoggedIn("bob", 8), Targeted("ann", "bob"), Closed(8), LoggedIn("carol", 8)];
    var h1 := [] + [LoggedIn("ann", 7)];
    var h2 := h1 + [LoggedIn("bob", 8)];
    var h3 := h2 + [Targeted("ann", "bob")];
    var h4 := h3 + [Closed(8)];
    assert h == h4 + [LoggedIn("carol", 8)];
    ConnNext(h1, LoggedIn("bob", 8), "bob");
    ConnNext(h2, Targeted("ann", "bob"), "bob");
    ConnNext(h3, Closed(8), "bob");
    ConnNext(h4, LoggedIn("carol", 8), "bob");
    ConnNext(h4, LoggedIn("carol", 8), "carol");
    MapsRemember(h2, "bob");
    TargetNext(h2, Targeted("ann", "bob"), "ann");
    TargetNext(h3, Closed(8), "ann");
    TargetNext(h4, LoggedIn("carol", 8), "ann");
    SentByOwner(h, "ann", text);
    assert "[" + "ann" + "]:" == "[ann]:";
  }

  // From one client to another

  /** What the handler does with a message that sets or uses a target. */
  function EventOf(conn: int, message: Message, order: seq<string>): Option<Event> {
    match message
    case Target(target, from) => Some(Targeted(from, target))
    case Content(text) => Some(Said(conn, text, order))
    case _ => None
  }

  ghost predicate Untagged(s: string) {
    !Contains(s, "cookie:") && !Contains(s, "login") && !Contains(s, "name:")
  }

  lemma ChoiceIsRead(cu: int, u: string, v: string, order: seq<string>)
    requires Untagged(u) && Untagged(v) && !Contains(v, "from")
    ensures Parse(PrintTarget(v, u)).Some?
    ensures EventOf(cu, Parse(PrintTarget(v, u)).value, order) == Some(Targeted(u, v))
  {
    TargetRoundTrip(v, u);
  }

  lemma LineIsRead(sock: int, cu: int, line: string, order: seq<string>)
    requires Untagged(line) && !Contains(line, "target:") && sock > 0 && line != "exit"
    ensures HandleSend(sock, line).Send? && Parse(HandleSend(sock, line).text).Some?
    ensures EventOf(cu, Parse(HandleSend(sock, line).text).value, order) == Some(Said(cu, line, order))
  {
    ContentRoundTrip(sock, line);
  }

  /** Nobody else logs in on `cu`, neither `u` nor `v` logs in elsewhere, and `u` chooses nobody else. */
  ghost predicate Undisturbed(mid: seq<Event>, cu: int, u: string, cv: int, v: string) {
    forall i :: 0 <= i < |mid| ==>
      match mid[i]
      case LoggedIn(n, c) => (n == u <==> c == cu) && (n == v ==> c == cv)
      case Targeted(from, target) => from == u ==> target == v
      case _ => true
  }

  lemma {:induction false} ChoiceLasts(h: seq<Event>, cu: int, u: string, cv: int, v: string, mid: seq<Event>)
    requires cu != 0 && SoleUser(h, cu, u) && LatestConn(h, v) == Some(cv) && Undisturbed(mid, cu, u, cv, v)
    ensures var h' := h + [Targeted(u, v)] + mid;
      SoleUser(h', cu, u) && LatestConn(h', v) == Some(cv) && LastTarget(h', u) == Some(v)
    decreases |mid|
  {
    var h' := h + [Targeted(u, v)] + mid;
    if mid == [] {
      assert h'[..|h'| - 1] == h;
      MapsRemember(h, v);
      forall n | StandsFor(h', n, cu)
        ensures n == u
      {
        assert StandsFor(h, n, cu);
      }
    } else {
      ChoiceLasts(h, cu, u, cv, v, mid[..|mid| - 1]);
      var before := h + [Targeted(u, v)] + mid[..|mid| - 1];
      assert h'[..|h'| - 1] == before && h'[|h'| - 1] == mid[|mid| - 1];
      var e := mid[|mid| - 1];
      forall n | StandsFor(h', n, cu)
        ensures n == u
      {
        if e != LoggedIn(n, cu) {
          assert StandsFor(before, n, cu);
        }
      }
    }
  }

  /** The whole way of a private message, from the line typed by `u` to what `v` receives, whatever others do between
      the choice of the target and the line. */
  lemma PrivateChat(h: seq<Event>, sock: int, cu: int, u: string, cv: int, v: string, mid: seq<Event>, line: string,
                    order: seq<string>)
    requires cu != 0 && SoleUser(h, cu, u) && LatestConn(h, v) == Some(cv) && Undisturbed(mid, cu, u, cv, v)
    requires Untagged(u) && Untagged(v) && !Contains(v, "from") && Untagged(line) && !Contains(line, "target:")
    requires sock > 0 && line != "exit"
    ensures Parse(PrintTarget(v, u)).Some? && HandleSend(sock, line).Send?
    ensures var choice := EventOf(cu, Parse(PrintTarget(v, u)).value, order);
      && choice.Some?
      && var h' := h + [choice.value] + mid;
      IsOrderOf(order, After(h').names) ==>
        && Parse(HandleSend(sock, line).text).Some?
        && var said := EventOf(cu, Parse(HandleSend(sock, line).text).value, order);
        && said.Some? && said.value.Said?
        && SaidSends(After(h'), FirstOwner(order, After(h').names, said.value.conn), said.value.text)
             == (cv, "[" + u + "]:" + line)
  {
    ChoiceIsRead(cu, u, v, order);
    LineIsRead(sock, cu, line, order);
    ChoiceLasts(h, cu, u, cv, v, mid);
    var h' := h + [Targeted(u, v)] + mid;
    if IsOrderOf(order, After(h').names) {
      SoleUserIsFound(h', cu, u, order);
      SentByOwner(h', u, line);
    }
  }
}

/** The lock table: roles hold resources and wait for them, and a request that would make roles
    wait for each other in a circle is told so. */
module LockTable {
  import opened Common

  type Role = nat
  type Resource = nat
  type Requests = map<Role, Resource>   // which resource a role waits for
  type Grants = map<Resource, Role>     // which role holds a resource

  datatype Answer = GRANT | BLOCK | DEADLOCK

  /** The role that role a waits for. */
  function WaitsFor(prq: Requests, grq: Grants, a: Role): Option<Role> {
    if a in prq && prq[a] in grq then Some(grq[prq[a]]) else None
  }

  /** The role n steps along the waits from a. */
  function Along(prq: Requests, grq: Grants, a: Role, n: nat): Option<Role>
    decreases n
  {
    if n == 0 then Some(a)
    else match WaitsFor(prq, grq, a)
      case None => None
      case Some(b) => Along(prq, grq, b, n - 1)
  }

  ghost predicate Reaches(prq: Requests, grq: Grants, a: Role, b: Role) {
    exists n: nat :: Along(prq, grq, a, n) == Some(b)
  }

  /** In at least one step. */
  ghost predicate Leads(prq: Requests, grq: Grants, a: Role, b: Role) {
    exists n: nat :: n > 0 && Along(prq, grq, a, n) == Some(b)
  }

  /** The waits from a lead to a role that waits, over any number of others, for itself. */
  ghost predicate MeetsCircle(prq: Requests, grq: Grants, a: Role) {
    exists c: Role :: Reaches(prq, grq, a, c) && Leads(prq, grq, c, c)
  }

  /** No role waits, over any number of others, for itself. */
  ghost predicate Acyclic(prq: Requests, grq: Grants) {
    forall a: Role, n: nat {:trigger Along(prq, grq, a, n)} :: n > 0 ==> Along(prq, grq, a, n) != Some(a)
  }

  // ---------------------------------------------------------------- walking along the waits

  lemma {:induction false} AlongFurther(prq: Requests, grq: Grants, a: Role, m: nat, b: Role, n: nat)
    requires Along(prq, grq, a, m) == Some(b)
    ensures Along(prq, grq, a, m + n) == Along(prq, grq, b, n)
    decreases m
  {
    if m > 0 { AlongFurther(prq, grq, WaitsFor(prq, grq, a).value, m - 1, b, n); }
  }

  /** With fewer waits there are fewer ways. */
  lemma {:induction false} FewerWays(prq: Requests, grq: Grants, prq': Requests, grq': Grants, a: Role, n: nat)
    requires forall x: Role {:trigger WaitsFor(prq', grq', x)} :: WaitsFor(prq', grq', x) == None || WaitsFor(prq', grq', x) == WaitsFor(prq, grq, x)
    ensures Along(prq', grq', a, n) == None || Along(prq', grq', a, n) == Along(prq, grq, a, n)
    decreases n
  {
    if n > 0 && WaitsFor(prq', grq', a).Some? {
      FewerWays(prq, grq, prq', grq', WaitsFor(prq', grq', a).value, n - 1);
    }
  }

  lemma FewerWaits(prq: Requests, grq: Grants, prq': Requests, grq': Grants)
    requires Acyclic(prq, grq)
    requires forall x: Role {:trigger WaitsFor(prq', grq', x)} :: WaitsFor(prq', grq', x) == None || WaitsFor(prq', grq', x) == WaitsFor(prq, grq, x)
    ensures Acyclic(prq', grq')
  {
    forall a: Role, n: nat | n > 0 ensures Along(prq', grq', a, n) != Some(a) { FewerWays(prq, grq, prq', grq', a, n); }
  }

  /** A new holder that waits for nothing ends every way that leads to it. */
  lemma {:induction false} WaysToHolder(prq: Requests, grq: Grants, role: Role, resource: Resource, a: Role, n: nat)
    requires role !in prq && resource !in grq
    ensures var r := Along(prq, grq[resource := role], a, n); r == None || r == Some(role) || r == Along(prq, grq, a, n)
    decreases n
  {
    var grq' := grq[resource := role];
    if n > 0 && WaitsFor(prq, grq', a).Some? {
      var b := WaitsFor(prq, grq', a).value;
      WaysToHolder(prq, grq, role, resource, b, n - 1);
      if b == role { assert WaitsFor(prq, grq', b) == None; }
    }
  }

  /** Granting a free resource closes no circle, whoever waits for it. */
  lemma GrantKeeps(prq: Requests, grq: Grants, role: Role, resource: Resource)
    requires Acyclic(prq, grq) && role !in prq && resource !in grq
    ensures Acyclic(prq, grq[resource := role])
  {
    var grq' := grq[resource := role];
    forall a: Role, n: nat | n > 0 ensures Along(prq, grq', a, n) != Some(a) {
      WaysToHolder(prq, grq, role, resource, a, n);
      if a == role { assert WaitsFor(prq, grq', a) == None; }
    }
  }

  /** Until it leads to the new waiter, a way is what it was. */
  lemma {:induction false} WaysWithout(prq: Requests, grq: Grants, role: Role, resource: Resource, a: Role, n: nat)
    requires role !in prq && forall i: nat {:trigger Along(prq, grq, a, i)} :: i < n ==> Along(prq, grq, a, i) != Some(role)
    ensures Along(prq[role := resource], grq, a, n) == Along(prq, grq, a, n)
    decreases n
  {
    var prq' := prq[role := resource];
    if n > 0 {
      assert Along(prq, grq, a, 0) == Some(a);
      assert WaitsFor(prq', grq, a) == WaitsFor(prq, grq, a);
      if WaitsFor(prq, grq, a).Some? {
        var b := WaitsFor(prq, grq, a).value;
        forall i: nat | i < n - 1 ensures Along(prq, grq, b, i) != Some(role) { assert Along(prq, grq, a, i + 1) == Along(prq, grq, b, i); }
        WaysWithout(prq, grq, role, resource, b, n - 1);
      }
    }
  }

  /** The first time a way leads to the new waiter. */
  lemma {:induction false} FirstTime(prq: Requests, grq: Grants, a: Role, role: Role, n: nat) returns (m: nat)
    requires Along(prq, grq, a, n) == Some(role)
    ensures m <= n && Along(prq, grq, a, m) == Some(role)
    ensures forall i: nat {:trigger Along(prq, grq, a, i)} :: i < m ==> Along(prq, grq, a, i) != Some(role)
    decreases n
  {
    if i: nat :| i < n && Along(prq, grq, a, i) == Some(role) {
      m := FirstTime(prq, grq, a, role, i);
    } else {
      m := n;
    }
  }

  /** A new wait closes a circle exactly when the holder waits, over any number of others, for
      the new waiter. */
  lemma NewWait(prq: Requests, grq: Grants, role: Role, resource: Resource)
    requires Acyclic(prq, grq) && role !in prq && resource in grq
    ensures Acyclic(prq[role := resource], grq) <==> !Reaches(prq, grq, grq[resource], role)
  {
    var prq', r := prq[role := resource], grq[resource];
    assert WaitsFor(prq', grq, role) == Some(r);
    if Reaches(prq, grq, r, role) {
      var n: nat :| Along(prq, grq, r, n) == Some(role);
      var m := FirstTime(prq, grq, r, role, n);
      WaysWithout(prq, grq, role, resource, r, m);
      var m1 := m + 1;
      assert Along(prq', grq, role, m1) == Some(role);
    } else {
      forall a: Role, n: nat | n > 0 ensures Along(prq', grq, a, n) != Some(a) {
        NoNewCircle(prq, grq, role, resource, a, n);
      }
    }
  }

  /** A circle in the new graph would be one in the old, or lead from the holder to the waiter. */
  lemma NoNewCircle(prq: Requests, grq: Grants, role: Role, resource: Resource, a: Role, n: nat)
    requires Acyclic(prq, grq) && role !in prq && resource in grq && !Reaches(prq, grq, grq[resource], role)
    requires n > 0
    ensures Along(prq[role := resource], grq, a, n) != Some(a)
  {
    var prq', r := prq[role := resource], grq[resource];
    if i: nat :| i < n && Along(prq, grq, a, i) == Some(role) {
      var m := FirstTime(prq, grq, a, role, i);
      WaysWithout(prq, grq, role, resource, a, m);
      AlongFurther(prq', grq, a, m, role, n - m);
      assert WaitsFor(prq', grq, role) == Some(r);
      var rest: nat := n - m - 1;
      assert Along(prq', grq, a, n) == Along(prq', grq, r, rest);
      forall k: nat ensures Along(prq, grq, r, k) != Some(role) { }
      WaysWithout(prq, grq, role, resource, r, rest);
      if Along(prq, grq, r, rest) == Some(a) {
        AlongFurther(prq, grq, r, rest, a, m);
      }
    } else {
      WaysWithout(prq, grq, role, resource, a, n);
    }
  }

  /** When it meets no circle, every wait ends with a role that can go on: it waits for nothing, or
      for a resource that is free by now. */
  lemma SomeoneCanGoOn(prq: Requests, grq: Grants, a: Role) returns (b: Role)
    requires !MeetsCircle(prq, grq, a)
    ensures Reaches(prq, grq, a, b) && WaitsFor(prq, grq, b) == None
  {
    b := a;
    var n, seen := 0, {};
    while WaitsFor(prq, grq, b).Some?
      invariant Along(prq, grq, a, n) == Some(b) && seen <= prq.Keys
      invariant forall x {:trigger x in seen} :: x in seen ==> Leads(prq, grq, x, b)
      decreases |prq.Keys - seen|
    {
      var c := WaitsFor(prq, grq, b).value;
      seen, n, b := OneMoreSeen(prq, grq, seen, a, n, b, c);
    }
  }

  lemma OneMoreSeen(prq: Requests, grq: Grants, seen: set<Role>, a: Role, n: nat, b: Role, c: Role) returns (seen': set<Role>, n': nat, c': Role)
    requires !MeetsCircle(prq, grq, a) && WaitsFor(prq, grq, b) == Some(c) && Along(prq, grq, a, n) == Some(b) && seen <= prq.Keys
    requires forall x {:trigger x in seen} :: x in seen ==> Leads(prq, grq, x, b)
    ensures seen' == seen + {b} <= prq.Keys && b !in seen && n' == n + 1 && c' == c && Along(prq, grq, a, n') == Some(c)
    ensures forall x {:trigger x in seen'} :: x in seen' ==> Leads(prq, grq, x, c)
    ensures |prq.Keys - seen'| < |prq.Keys - seen|
  {
    assert Leads(prq, grq, b, c) by { assert Along(prq, grq, b, 1) == Some(c) by { assert Along(prq, grq, c, 0) == Some(c); } }
    seen', n', c' := seen + {b}, n + 1, c;
    assert Along(prq, grq, b, 1) == Some(c) by { assert Along(prq, grq, c, 0) == Some(c); }
    AlongFurther(prq, grq, a, n, b, 1);
    forall x | x in seen' ensures Leads(prq, grq, x, c) {
      if x in seen {
        var k: nat :| k > 0 && Along(prq, grq, x, k) == Some(b);
        AlongFurther(prq, grq, x, k, b, 1);
        var k1 := k + 1;
        assert Along(prq, grq, x, k1) == Some(c);
      }
    }
    assert Reaches(prq, grq, a, b);
    assert b !in seen;
    assert prq.Keys - seen' == (prq.Keys - seen) - {b};
  }

  // ---------------------------------------------------------------- when the walk ends

  lemma {:induction false} WayBefore(prq: Requests, grq: Grants, a: Role, m: nat, n: nat)
    requires Along(prq, grq, a, n).Some? && m <= n
    ensures Along(prq, grq, a, m).Some?
    decreases m
  {
    if m > 0 { WayBefore(prq, grq, WaitsFor(prq, grq, a).value, m - 1, n - 1); }
  }

  /** Round a circle every way goes on for ever. */
  lemma {:induction false} RoundForEver(prq: Requests, grq: Grants, c: Role, p: nat, n: nat)
    requires p > 0 && Along(prq, grq, c, p) == Some(c)
    ensures Along(prq, grq, c, n).Some?
    decreases n
  {
    if n <= p {
      WayBefore(prq, grq, c, n, p);
    } else {
      var rest: nat := n - p;
      AlongFurther(prq, grq, c, p, c, rest);
      RoundForEver(prq, grq, c, p, rest);
    }
  }

  lemma NeverEnds(prq: Requests, grq: Grants, a: Role, n: nat)
    requires MeetsCircle(prq, grq, a)
    ensures Along(prq, grq, a, n).Some?
  {
    var c: Role :| Reaches(prq, grq, a, c) && Leads(prq, grq, c, c);
    var i: nat :| Along(prq, grq, a, i) == Some(c);
    if n <= i {
      WayBefore(prq, grq, a, n, i);
    } else {
      var p: nat :| p > 0 && Along(prq, grq, c, p) == Some(c);
      var rest: nat := n - i;
      AlongFurther(prq, grq, a, i, c, rest);
      RoundForEver(prq, grq, c, p, rest);
    }
  }

  /** The walk from a stops at its n-th role: it is the one that asks, or it can go on. */
  ghost predicate StopsAt(prq: Requests, grq: Grants, a: Role, role: Role, n: nat) {
    var r := Along(prq, grq, a, n);
    r.Some? && (r.value == role || WaitsFor(prq, grq, r.value) == None)
  }

  ghost predicate Stops(prq: Requests, grq: Grants, a: Role, role: Role) {
    exists n: nat :: StopsAt(prq, grq, a, role, n)
  }

  /** The walk for a request that has to wait, over the table that has the request already. */
  ghost predicate WalkEnds(prq: Requests, grq: Grants, role: Role, resource: Resource)
    requires resource in grq
  {
    Stops(prq[role := resource], grq, grq[resource], role)
  }

  /** Without the new request the way that the walk takes ends too. */
  lemma {:induction false} EndsBefore(prq: Requests, grq: Grants, role: Role, resource: Resource, a: Role, n: nat) returns (m: nat)
    requires role !in prq && StopsAt(prq[role := resource], grq, a, role, n)
    ensures Along(prq, grq, a, m) == None
    decreases n
  {
    var prq' := prq[role := resource];
    if a == role || WaitsFor(prq', grq, a) == None {
      m := 1;
    } else {
      var b, k := WaitsFor(prq', grq, a).value, n - 1;
      assert WaitsFor(prq, grq, a) == Some(b);
      assert StopsAt(prq', grq, b, role, k);
      m := EndsBefore(prq, grq, role, resource, b, k);
      m := m + 1;
    }
  }

  /** The walk for a request ends exactly when the holder's waits lead round no circle. */
  lemma EndsExactly(prq: Requests, grq: Grants, role: Role, resource: Resource)
    requires role !in prq && resource in grq && grq[resource] != role
    ensures WalkEnds(prq, grq, role, resource) <==> !MeetsCircle(prq, grq, grq[resource])
  {
    var prq', holder := prq[role := resource], grq[resource];
    if WalkEnds(prq, grq, role, resource) {
      var n: nat :| StopsAt(prq', grq, holder, role, n);
      var m := EndsBefore(prq, grq, role, resource, holder, n);
      if MeetsCircle(prq, grq, holder) { NeverEnds(prq, grq, holder, m); }
    } else if !MeetsCircle(prq, grq, holder) {
      var b := SomeoneCanGoOn(prq, grq, holder);
      var n: nat :| Along(prq, grq, holder, n) == Some(b);
      if i: nat :| i <= n && Along(prq, grq, holder, i) == Some(role) {
        var m := FirstTime(prq, grq, holder, role, i);
        WaysWithout(prq, grq, role, resource, holder, m);
        assert StopsAt(prq', grq, holder, role, m);
      } else {
        WaysWithout(prq, grq, role, resource, holder, n);
        assert StopsAt(prq', grq, holder, role, n);
      }
    }
  }

  /** A request that is answered: at once, or at the end of a walk. */
  ghost predicate CanAsk(prq: Requests, grq: Grants, role: Role, resource: Resource) {
    role in prq || resource !in grq || grq[resource] == role || !MeetsCircle(prq, grq, grq[resource])
  }

  // ---------------------------------------------------------------- operations

  /** What a request for a resource is answered, and what becomes of the table. */
  ghost function Locked(prq: Requests, grq: Grants, role: Role, resource: Resource): (Answer, Requests, Grants) {
    if role in prq then (BLOCK, prq, grq)
    else if resource !in grq then (GRANT, prq, grq[resource := role])
    else if grq[resource] == role then (GRANT, prq, grq)
    else (if Reaches(prq, grq, grq[resource], role) then DEADLOCK else BLOCK, prq[role := resource], grq)
  }

  ghost function Unlocked(prq: Requests, grq: Grants, role: Role, resource: Resource): (Requests, Grants) {
    if role in prq && prq[role] == resource then (prq - {role}, grq)
    else if resource in grq && grq[resource] == role then (prq, grq - {resource})
    else (prq, grq)
  }

  ghost function Held(grq: Grants, role: Role): set<Resource> {
    set x | x in grq && grq[x] == role
  }

  ghost function AllUnlocked(prq: Requests, grq: Grants, role: Role): (Requests, Grants) {
    (prq - {role}, grq - Held(grq, role))
  }

  /** The walk from the holder, now at r, has not met the new waiter. */
  ghost predicate Walked(prq: Requests, grq: Grants, holder: Role, role: Role, n: nat, r: Role, seen: set<Role>) {
    && Along(prq, grq, holder, n) == Some(r) && r != role && seen <= prq.Keys
    && (forall i: nat {:trigger Along(prq, grq, holder, i)} :: i <= n ==> Along(prq, grq, holder, i) != Some(role))
    && forall x {:trigger x in seen} :: x in seen ==> Leads(prq, grq, x, r)
  }

  lemma WalkOn(prq: Requests, grq: Grants, holder: Role, role: Role, n: nat, r: Role, seen: set<Role>, c: Role) returns (seen': set<Role>, n': nat)
    requires !MeetsCircle(prq, grq, holder) && Walked(prq, grq, holder, role, n, r, seen) && WaitsFor(prq, grq, r) == Some(c)
    ensures if c == role then Reaches(prq, grq, holder, role) else Walked(prq, grq, holder, role, n', c, seen')
    ensures |prq.Keys - seen'| < |prq.Keys - seen|
  {
    ghost var c';
    seen', n', c' := OneMoreSeen(prq, grq, seen, holder, n, r, c);
    assert Along(prq, grq, holder, n') == Some(c);
    if c != role {
      forall i: nat | i <= n' ensures Along(prq, grq, holder, i) != Some(role) { assert i <= n || i == n'; }
    }
  }

  /** The walk came to its end without meeting the new waiter. */
  lemma NeverMet(prq: Requests, grq: Grants, holder: Role, role: Role, n: nat, r: Role, seen: set<Role>)
    requires Walked(prq, grq, holder, role, n, r, seen) && WaitsFor(prq, grq, r) == None
    ensures !Reaches(prq, grq, holder, role)
  {
    forall k: nat ensures Along(prq, grq, holder, k) != Some(role) {
      if k > n { AlongFurther(prq, grq, holder, n, r, k - n); }
    }
  }

  class LockTable {
    var prq: Requests
    var grq: Grants

    constructor ()
      ensures prq == map[] && grq == map[]
    {
      prq, grq := map[], map[];
    }

    /** The walk for a request comes to an end exactly when it meets no circle. */
    method Lock(role: Role, resource: Resource) returns (answer: Answer)
      requires CanAsk(prq, grq, role, resource)
      modifies this
      ensures (answer, prq, grq) == Locked(old(prq), old(grq), role, resource)
    {
      if role in prq { return BLOCK; }
      if resource !in grq {
        grq := grq[resource := role];
        return GRANT;
      }
      var r := grq[resource];
      if r == role { return GRANT; }
      ghost var was, held, holder := prq, grq, r;
      ghost var n: nat, seen := 0, {};
      prq := prq[role := resource];
      while r in prq && prq[r] in grq
        invariant prq == was[role := resource] && grq == held
        invariant Walked(was, held, holder, role, n, r, seen)
        decreases |was.Keys - seen|
      {
        ghost var c := held[was[r]];
        seen, n := WalkOn(was, held, holder, role, n, r, seen, c);
        r := grq[prq[r]];
        if r == role { return DEADLOCK; }
      }
      NeverMet(was, held, holder, role, n, r, seen);
      answer := BLOCK;
    }

    /** Withdraws a request, or gives a resource back and names the roles that wait for it. */
    method Unlock(role: Role, resource: Resource) returns (notified: set<Role>)
      modifies this
      ensures (prq, grq) == Unlocked(old(prq), old(grq), role, resource)
      ensures notified == if grq == old(grq) then {} else set x | x in prq && prq[x] == resource
    {
      notified := {};
      if role in prq && prq[role] == resource {
        prq := prq - {role};
        return;
      }
      if resource !in grq || grq[resource] != role { return; }
      grq := grq - {resource};
      var left := prq.Keys;
      while left != {}
        invariant left <= prq.Keys && notified == set x | x in prq && x !in left && prq[x] == resource
      {
        var x :| x in left;
        if prq[x] == resource { notified := notified + {x}; }
        left := left - {x};
      }
    }

    /** Withdraws the role's request and gives all its resources back. */
    method UnlockAll(role: Role) returns (notified: set<(Role, Resource)>)
      modifies this
      ensures (prq, grq) == AllUnlocked(old(prq), old(grq), role)
      ensures forall x: Role, y: Resource :: (x, y) in notified <==> x in prq && prq[x] == y && y in Held(old(grq), role)
    {
      notified := {};
      prq := prq - {role};
      ghost var was := grq;
      var mine := set x | x in grq && grq[x] == role;
      assert mine == Held(was, role);
      while mine != {}
        invariant prq == old(prq) - {role} && mine <= Held(was, role) && grq == was - (Held(was, role) - mine)
        invariant forall x: Role, y: Resource :: (x, y) in notified <==> x in prq && prq[x] == y && y in Held(was, role) && y !in mine
      {
        var y :| y in mine;
        var left := prq.Keys;
        ghost var before := notified;
        while left != {}
          invariant left <= prq.Keys && prq == old(prq) - {role} && grq == was - (Held(was, role) - mine)
          invariant forall x: Role, z: Resource :: (x, z) in notified <==> (x, z) in before || (z == y && x in prq && x !in left && prq[x] == y)
        {
          var x :| x in left;
          if prq[x] == y { notified := notified + {(x, y)}; }
          left := left - {x};
        }
        grq := grq - {y};
        mine := mine - {y};
      }
      assert Held(was, role) - {} == Held(was, role);
    }
  }

  /** What GRANT and the other answers mean, on any table: who is granted holds the resource, and
      who is not waits, for this resource when he did not wait before and then somebody else holds
      it.  Nothing else changes: no other resource its holder, no other role its request. */
  lemma AnswersMean(prq: Requests, grq: Grants, role: Role, resource: Resource)
    ensures var (answer, prq', grq') := Locked(prq, grq, role, resource);
            && (answer == GRANT ==> resource in grq' && grq'[resource] == role && prq' == prq)
            && (answer == GRANT <==> role !in prq')
            && (answer != GRANT ==> grq' == grq)
            && (answer != GRANT && role !in prq ==> prq'[role] == resource && resource in grq && grq[resource] != role)
            && (role in prq ==> answer == BLOCK && prq' == prq)
    ensures var (answer, prq', grq') := Locked(prq, grq, role, resource);
            && (forall x: Resource :: x != resource || x in grq ==> (x in grq' <==> x in grq) && (x in grq ==> grq'[x] == grq[x]))
            && (forall b: Role :: b != role ==> (b in prq' <==> b in prq) && (b in prq ==> prq'[b] == prq[b]))
  {
  }

  /** Who waits for a resource withdraws, who holds it and does not wait for it frees it, and
      nothing else changes; a free resource is granted to the next role that asks and waits for
      nothing. */
  lemma GivenBack(prq: Requests, grq: Grants, role: Role, resource: Resource, next: Role)
    ensures var (prq', grq') := Unlocked(prq, grq, role, resource);
            && (role in prq && prq[role] == resource ==> role !in prq' && grq' == grq)
            && (!(role in prq && prq[role] == resource) ==> prq' == prq && (resource in grq' ==> grq'[resource] != role))
            && (forall x: Resource :: x != resource || (x in grq && grq[x] != role) ==> (x in grq' <==> x in grq) && (x in grq ==> grq'[x] == grq[x]))
            && (forall b: Role :: b != role ==> (b in prq' <==> b in prq) && (b in prq ==> prq'[b] == prq[b]))
    ensures var (prq', grq') := Unlocked(prq, grq, role, resource);
            resource in grq && grq[resource] == role && !(role in prq && prq[role] == resource) && next !in prq ==> Locked(prq', grq', next, resource).0 == GRANT
  {
  }

  /** After everything is given back the role holds and waits for nothing; the others are as they were. */
  lemma AllGivenBack(prq: Requests, grq: Grants, role: Role)
    ensures var (prq', grq') := AllUnlocked(prq, grq, role);
            && role !in prq' && (forall x: Resource :: x in grq' ==> grq'[x] != role)
            && (forall x: Resource :: x in grq && grq[x] != role ==> x in grq' && grq'[x] == grq[x])
            && (forall b: Role :: b != role ==> (b in prq' <==> b in prq) && (b in prq ==> prq'[b] == prq[b]))
  {
  }

  /** DEADLOCK is answered exactly when the table now holds a circle. */
  lemma ToldExactly(prq: Requests, grq: Grants, role: Role, resource: Resource)
    requires Acyclic(prq, grq)
    ensures var (answer, prq', grq') := Locked(prq, grq, role, resource); answer == DEADLOCK <==> !Acyclic(prq', grq')
  {
    if role !in prq {
      if resource !in grq { GrantKeeps(prq, grq, role, resource); }
      else if grq[resource] != role { NewWait(prq, grq, role, resource); }
    }
  }

  /** On any table, with circles or without: a role that does not wait yet is answered DEADLOCK
      exactly when it now waits, over others, for itself. */
  lemma ToldOnCircle(prq: Requests, grq: Grants, role: Role, resource: Resource)
    requires role !in prq
    ensures var (answer, prq', grq') := Locked(prq, grq, role, resource); answer == DEADLOCK <==> Leads(prq', grq', role, role)
  {
    var (answer, prq', grq') := Locked(prq, grq, role, resource);
    if resource !in grq || grq[resource] == role {
      assert WaitsFor(prq', grq', role) == None;
      forall n: nat | n > 0 ensures Along(prq', grq', role, n) != Some(role) { }
    } else {
      var r := grq[resource];
      assert WaitsFor(prq', grq, role) == Some(r);
      if Reaches(prq, grq, r, role) {
        var n: nat :| Along(prq, grq, r, n) == Some(role);
        var m := FirstTime(prq, grq, r, role, n);
        WaysWithout(prq, grq, role, resource, r, m);
        var m1 := m + 1;
        assert Along(prq', grq, role, m1) == Some(role);
      } else {
        forall n: nat | n > 0 ensures Along(prq', grq, role, n) != Some(role) {
          var m: nat := n - 1;
          forall i: nat ensures Along(prq, grq, r, i) != Some(role) { }
          WaysWithout(prq, grq, role, resource, r, m);
        }
      }
    }
  }

  // ---------------------------------------------------------------- runs

  datatype Op = Ask(role: Role, resource: Resource) | Release(role: Role, resource: Resource) | ReleaseAll(role: Role)

  /** The table, and the role that was told DEADLOCK and still has its request there. */
  datatype State = State(prq: Requests, grq: Grants, told: Option<Role>)

  /** Nobody asks while such a role is there. */
  ghost predicate Allowed(s: State, op: Op) {
    op.Ask? ==> s.told == None
  }

  ghost function Next(s: State, op: Op): State {
    match op
    case Ask(role, resource) =>
      var (answer, prq, grq) := Locked(s.prq, s.grq, role, resource);
      State(prq, grq, if answer == DEADLOCK then Some(role) else None)
    case Release(role, resource) =>
      var (prq, grq) := Unlocked(s.prq, s.grq, role, resource);
      State(prq, grq, Left(s.told, prq))
    case ReleaseAll(role) =>
      var (prq, grq) := AllUnlocked(s.prq, s.grq, role);
      State(prq, grq, Left(s.told, prq))
  }

  ghost function Left(told: Option<Role>, prq: Requests): Option<Role> {
    if told.Some? && told.value in prq then told else None
  }

  /** Without the request of the role told so, there is no circle. */
  ghost predicate Inv(s: State) {
    Acyclic(if s.told.Some? then s.prq - {s.told.value} else s.prq, s.grq)
  }

  lemma StepKeeps(s: State, op: Op)
    requires Inv(s) && Allowed(s, op)
    ensures Inv(Next(s, op))
  {
    var s' := Next(s, op);
    var prq := if s.told.Some? then s.prq - {s.told.value} else s.prq;
    var prq' := if s'.told.Some? then s'.prq - {s'.told.value} else s'.prq;
    if op.Ask? && op.role !in s.prq && op.resource !in s.grq {
      GrantKeeps(s.prq, s.grq, op.role, op.resource);
    } else if op.Ask? && op.role !in s.prq && s.grq[op.resource] != op.role {
      NewWait(s.prq, s.grq, op.role, op.resource);
      if s'.told.Some? { assert prq' == s.prq; }
    } else {
      FewerWaits(prq, s.grq, prq', s'.grq);
    }
  }

  ghost function Run(s: State, ops: seq<Op>): State
    decreases |ops|
  {
    if ops == [] then s else Next(Run(s, ops[..|ops| - 1]), ops[|ops| - 1])
  }

  /** Each request is made while nobody who was told DEADLOCK still has its own there. */
  ghost predicate Disciplined(s: State, ops: seq<Op>) {
    forall i {:trigger ops[i]} :: 0 <= i < |ops| ==> Allowed(Run(s, ops[..i]), ops[i])
  }

  const START := State(map[], map[], None)

  /** In every such run, whenever nobody was told so, no roles wait in a circle, and so everyone
      waits, over others, for someone who can go on. */
  lemma {:induction false} RunsStayAcyclic(ops: seq<Op>)
    requires Disciplined(START, ops)
    ensures Inv(Run(START, ops))
    ensures var s := Run(START, ops); s.told == None ==> Acyclic(s.prq, s.grq)
    decreases |ops|
  {
    if ops != [] {
      var n := |ops| - 1;
      var front := ops[..n];
      forall i {:trigger front[i]} | 0 <= i < n ensures Allowed(Run(START, front[..i]), front[i]) {
        assert front[..i] == ops[..i] && front[i] == ops[i];
      }
      RunsStayAcyclic(front);
      assert Allowed(Run(START, ops[..n]), ops[n]);
      StepKeeps(Run(START, front), ops[n]);
    } else {
      assert forall a: Role {:trigger WaitsFor(START.prq, START.grq, a)} :: WaitsFor(START.prq, START.grq, a) == None;
    }
  }

  function Gives(op: Op, role: Role, resource: Resource): bool {
    op == Release(role, resource) || op == ReleaseAll(role)
  }

  ghost predicate Told(s: State, op: Op, answer: Answer) {
    op.Ask? && Locked(s.prq, s.grq, op.role, op.resource).0 == answer
  }

  lemma HolderStays(s: State, op: Op, role: Role, resource: Resource)
    requires resource in s.grq && s.grq[resource] == role && !Gives(op, role, resource)
    ensures resource in Next(s, op).grq && Next(s, op).grq[resource] == role
    ensures op.Ask? && op.resource == resource && op.role != role ==> !Told(s, op, GRANT)
  {
    match op
    case Ask(b, x) => AnswersMean(s.prq, s.grq, b, x);
    case Release(b, x) => GivenBack(s.prq, s.grq, b, x, b);
    case ReleaseAll(b) => AllGivenBack(s.prq, s.grq, b);
  }

  /** In every run, disciplined or not: a resource granted is held by that role, and no other role
      is told GRANT for it, as long as that role does not give it back. */
  lemma {:induction false} GrantedAlone(s: State, ops: seq<Op>, k: nat, n: nat)
    requires k < n <= |ops| && Told(Run(s, ops[..k]), ops[k], GRANT)
    requires forall i {:trigger ops[i]} :: k < i < n ==> !Gives(ops[i], ops[k].role, ops[k].resource)
    ensures var t, x := Run(s, ops[..n]), ops[k].resource; x in t.grq && t.grq[x] == ops[k].role
    ensures n < |ops| && ops[n].Ask? && ops[n].resource == ops[k].resource && ops[n].role != ops[k].role ==> !Told(Run(s, ops[..n]), ops[n], GRANT)
    decreases n
  {
    var role, x, before, last := ops[k].role, ops[k].resource, Run(s, ops[..n - 1]), ops[n - 1];
    assert ops[..n][..n - 1] == ops[..n - 1];
    assert Run(s, ops[..n]) == Next(before, last);
    if n == k + 1 {
      AnswersMean(before.prq, before.grq, role, x);
    } else {
      GrantedAlone(s, ops, k, n - 1);
      HolderStays(before, last, role, x);
    }
    if n < |ops| && ops[n].Ask? && ops[n].resource == x && ops[n].role != role { HolderStays(Run(s, ops[..n]), ops[n], role, x); }
  }

  /** Withdrawing at once what was answered DEADLOCK leaves the table as it was before. */
  lemma WithdrawRestores(prq: Requests, grq: Grants, role: Role, resource: Resource)
    requires Locked(prq, grq, role, resource).0 == DEADLOCK
    ensures var (answer, prq', grq') := Locked(prq, grq, role, resource); Unlocked(prq', grq', role, resource) == (prq, grq)
  {
    assert prq[role := resource] - {role} == prq;
  }

  /** Roles 1 and 2 in a circle: 2 was told so. */
  lemma Circle() returns (s: State)
    ensures s == Next(Next(Next(Next(START, Ask(1, 10)), Ask(2, 20)), Ask(1, 20)), Ask(2, 10))
    ensures s == State(map[1 := 20, 2 := 10], map[10 := 1, 20 := 2], Some(2))
  {
    var prq, grq := map[], map[10 := 1, 20 := 2];
    assert Next(Next(START, Ask(1, 10)), Ask(2, 20)) == State(prq, grq, None);
    forall n: nat ensures Along(prq, grq, 2, n) != Some(1) { }
    assert Next(State(prq, grq, None), Ask(1, 20)) == State(map[1 := 20], grq, None);
    assert Along(map[1 := 20], grq, 2, 0) == Some(2);
    assert Along(map[1 := 20], grq, 1, 1) == Some(2);
    s := Next(State(map[1 := 20], grq, None), Ask(2, 10));
  }

  /** Why a request told DEADLOCK has to be withdrawn before the next one: with 1 and 2 in a
      circle, the walk for what 3 asks of them goes round that circle for ever, and never meets 3. */
  lemma WithoutDiscipline(s: State)
    requires s == State(map[1 := 20, 2 := 10], map[10 := 1, 20 := 2], Some(2))
    ensures !CanAsk(s.prq, s.grq, 3, 10) && !WalkEnds(s.prq, s.grq, 3, 10)
  {
    RoundTwo(s.prq, s.grq);
    assert Along(s.prq, s.grq, 1, 0) == Some(1);
    EndsExactly(s.prq, s.grq, 3, 10);
  }

  lemma RoundTwo(prq: Requests, grq: Grants)
    requires prq == map[1 := 20, 2 := 10] && 10 in grq && grq[10] == 1 && 20 in grq && grq[20] == 2
    ensures Leads(prq, grq, 1, 1)
  {
    assert Along(prq, grq, 1, 0) == Some(1);
    assert Along(prq, grq, 2, 1) == Some(1);
    assert Along(prq, grq, 1, 2) == Some(1);
  }

  /** The same circle does not matter to a request for what 4 holds. */
  lemma CircleElsewhere(prq: Requests, grq: Grants)
    requires prq == map[1 := 20, 2 := 10] && grq == map[10 := 1, 20 := 2, 30 := 4]
    ensures !Acyclic(prq, grq) && CanAsk(prq, grq, 3, 30) && Locked(prq, grq, 3, 30).0 == BLOCK
  {
    RoundTwo(prq, grq);
    assert WaitsFor(prq, grq, 4) == None;
    forall n: nat ensures n > 0 ==> Along(prq, grq, 4, n) == None { }
    assert forall n: nat :: Along(prq, grq, 4, n) == None || Along(prq, grq, 4, n) == Some(4);
  }
}

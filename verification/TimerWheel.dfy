/** The timer wheel: timers in doubly linked lists, one list for each residue of the tick they are
    due at, and a stack of free entries. */
module TimerWheel {
  import opened Common

  /** A list link is the index of an entry, or -1. */
  datatype Entry = Entry(used: bool, interval: nat, times: nat, nextTick: nat, obj: nat, bucket: int, prev: int, next: int)

  const BLANK := Entry(false, 0, 0, 0, 0, -1, -1, -1)

  /** What a timer is for its user: when it is due next, how often after that, how many times (0 for
      ever), and for whom. */
  datatype Timer = Timer(due: nat, interval: nat, times: nat, obj: nat)

  /** What a callback does with its own timer. */
  datatype Action = Nothing | RemoveSelf | Change(interval: int, atOnce: bool)

  function TimerOf(e: Entry): Option<Timer> {
    if e.used then Some(Timer(e.nextTick, e.interval, e.times, e.obj)) else None
  }

  function AtLeast1(x: int): (r: nat)
  {
    if x < 1 then 1 else x
  }

  // ---------------------------------------------------------------- the lists

  /** The entry at place k of list b knows its neighbours. */
  ghost predicate Place(es: seq<Entry>, b: int, l: seq<nat>, k: nat) {
    k < |l| ==>
      && l[k] < |es| && es[l[k]].bucket == b
      && es[l[k]].prev == (if k == 0 then -1 else l[k - 1])
      && es[l[k]].next == (if k + 1 < |l| then l[k + 1] else -1)
  }

  ghost predicate ListOk(es: seq<Entry>, head: int, b: int, l: seq<nat>) {
    && head == (if l == [] then -1 else l[0])
    && (forall k: nat {:trigger Place(es, b, l, k)} :: Place(es, b, l, k))
    && Distinct(l)
  }

  /** The bucket of a linked entry follows from the tick it is due at. */
  ghost predicate EntryOk(es: seq<Entry>, lists: seq<seq<nat>>, i: nat) {
    i < |es| ==>
      && -1 <= es[i].bucket < |lists|
      && (es[i].bucket >= 0 ==> es[i].used && i in lists[es[i].bucket] && es[i].bucket == es[i].nextTick % |lists|)
      && (es[i].used ==> es[i].interval >= 1)
  }

  ghost predicate Linked(es: seq<Entry>, bs: seq<int>, lists: seq<seq<nat>>) {
    && |bs| == |lists| > 0
    && (forall b {:trigger lists[b]} :: 0 <= b < |lists| ==> ListOk(es, bs[b], b, lists[b]))
    && (forall i: nat {:trigger EntryOk(es, lists, i)} :: EntryOk(es, lists, i))
  }

  /** Every entry not in use is on the stack of free entries, once. */
  ghost predicate FreeOk(es: seq<Entry>, stack: seq<nat>, top: nat) {
    && top <= |stack| == |es|
    && (forall k {:trigger stack[k]} :: 0 <= k < top ==> stack[k] < |es| && !es[stack[k]].used)
    && (forall j, k :: 0 <= j < k < top ==> stack[j] != stack[k])
    && (forall i {:trigger es[i]} :: 0 <= i < |es| && !es[i].used ==> i in stack[..top])
  }

  /** The entries other than i are the same but for their links. */
  ghost predicate OthersSame(es: seq<Entry>, es': seq<Entry>, i: nat) {
    |es'| == |es| && forall j {:trigger es'[j]} {:trigger es[j]} :: 0 <= j < |es| && j != i ==> es'[j] == es[j].(prev := es'[j].prev, next := es'[j].next)
  }

  /** A list keeps its order when its entries do. */
  lemma ListStays(es: seq<Entry>, es': seq<Entry>, head: int, b: int, l: seq<nat>)
    requires ListOk(es, head, b, l) && |es'| == |es|
    requires forall i {:trigger es'[i]} :: 0 <= i < |es| && es[i].bucket == b ==> es'[i] == es[i]
    ensures ListOk(es', head, b, l)
  {
    forall k: nat ensures Place(es', b, l, k) { assert Place(es, b, l, k); }
  }

  /** Entry i becomes the head of list b. */
  lemma LinkOk(es: seq<Entry>, bs: seq<int>, lists: seq<seq<nat>>, i: nat, b: nat, es1: seq<Entry>, es': seq<Entry>)
    requires Linked(es, bs, lists) && i < |es| && es[i].bucket == -1 && es[i].used && b == es[i].nextTick % |lists|
    requires bs[b] < |es| && es1 == if bs[b] >= 0 then es[bs[b] := es[bs[b]].(prev := i)] else es
    requires es' == es1[i := es[i].(bucket := b, prev := -1, next := bs[b])]
    ensures Linked(es', bs[b := i], lists[b := [i] + lists[b]]) && OthersSame(es, es', i)
  {
    var l := lists[b];
    var l', lists', bs' := [i] + l, lists[b := [i] + l], bs[b := i];
    assert ListOk(es, bs[b], b, l) && Place(es, b, l, 0);
    NotIn(es, bs[b], b, l, i);
    forall c {:trigger lists'[c]} | 0 <= c < |lists'| ensures ListOk(es', bs'[c], c, lists'[c]) {
      assert ListOk(es, bs[c], c, lists[c]);
      if c == b { PushList(es, bs[b], b, l, i, es', l'); } else { ListStays(es, es', bs[c], c, lists[c]); }
    }
    forall j: nat ensures EntryOk(es', lists', j) {
      assert EntryOk(es, lists, j);
      if j == i { assert l'[0] == i; }
      else if j < |es| && es[j].bucket == b { var k :| 0 <= k < |l| && l[k] == j; assert l'[k + 1] == j; }
    }
  }

  lemma NotIn(es: seq<Entry>, head: int, b: int, l: seq<nat>, i: nat)
    requires ListOk(es, head, b, l) && i < |es| && es[i].bucket != b
    ensures i !in l
  {
    forall k | 0 <= k < |l| ensures l[k] != i { assert Place(es, b, l, k); }
  }

  lemma PushList(es: seq<Entry>, head: int, b: int, l: seq<nat>, i: nat, es': seq<Entry>, l': seq<nat>)
    requires ListOk(es, head, b, l) && i < |es| && i !in l && l' == [i] + l && |es'| == |es|
    requires es'[i].bucket == b && es'[i].prev == -1 && es'[i].next == head
    requires forall j {:trigger es'[j]} :: 0 <= j < |es| && j != i ==> es'[j] == if j == head then es[j].(prev := i) else es[j]
    ensures ListOk(es', i, b, l')
  {
    forall k: nat ensures Place(es', b, l', k) {
      if 0 < k < |l'| {
        var m: nat := k - 1;
        assert Place(es, b, l, m) && l'[k] == l[m];
        assert m > 0 ==> l[m] != l[0];
      }
    }
  }

  /** Entry i, at place k of its list, leaves it. */
  lemma UnlinkOk(es: seq<Entry>, bs: seq<int>, lists: seq<seq<nat>>, i: nat, k: nat, b: nat, es': seq<Entry>, bs': seq<int>, l': seq<nat>)
    requires Linked(es, bs, lists) && i < |es| && b == es[i].bucket && b < |lists| && k < |lists[b]| && lists[b][k] == i
    requires Cut(es, lists[b], k, es') && es'[i] == es[i].(bucket := -1, prev := -1, next := -1)
    requires bs' == if k > 0 then bs else bs[b := es[i].next]
    requires l' == lists[b][..k] + lists[b][k + 1..]
    ensures Linked(es', bs', lists[b := l'])
  {
    var l := lists[b];
    var lists' := lists[b := l'];
    assert ListOk(es, bs[b], b, l);
    forall c {:trigger lists'[c]} | 0 <= c < |lists'| ensures ListOk(es', bs'[c], c, lists'[c]) {
      assert ListOk(es, bs[c], c, lists[c]);
      if c == b { CutList(es, bs[b], b, l, i, k, es', bs'[b], l'); }
      else { CutElsewhere(es, l, k, b, c, es'); ListStays(es, es', bs[c], c, lists[c]); }
    }
    forall j: nat ensures EntryOk(es', lists', j) {
      assert EntryOk(es, lists, j);
      if j != i && j < |es| && es[j].bucket == b {
        var m :| 0 <= m < |l| && l[m] == j;
        if m < k { assert l'[m] == j; } else { assert l'[m - 1] == j; }
      }
    }
  }

  /** The neighbours of place k know each other; nothing else changes but entry l[k]. */
  ghost predicate Cut(es: seq<Entry>, l: seq<nat>, k: nat, es': seq<Entry>) {
    && |es'| == |es| && k < |l| && l[k] < |es|
    && (k > 0 ==> l[k - 1] < |es|) && (k + 1 < |l| ==> l[k + 1] < |es|)
    && forall j {:trigger es'[j]} {:trigger es[j]} :: 0 <= j < |es| && j != l[k] ==>
         es'[j] == es[j].(prev := if k + 1 < |l| && j == l[k + 1] then es[l[k]].prev else es[j].prev,
                          next := if k > 0 && j == l[k - 1] then es[l[k]].next else es[j].next)
  }

  lemma CutElsewhere(es: seq<Entry>, l: seq<nat>, k: nat, b: int, c: int, es': seq<Entry>)
    requires Cut(es, l, k, es') && c != b && Place(es, b, l, k) && (k > 0 ==> Place(es, b, l, k - 1)) && Place(es, b, l, k + 1)
    ensures forall i {:trigger es'[i]} :: 0 <= i < |es| && es[i].bucket == c ==> es'[i] == es[i]
  {
  }

  lemma CutList(es: seq<Entry>, head: int, b: int, l: seq<nat>, i: nat, k: nat, es': seq<Entry>, head': int, l': seq<nat>)
    requires ListOk(es, head, b, l) && k < |l| && l[k] == i && l' == l[..k] + l[k + 1..] && Cut(es, l, k, es')
    requires head' == if k > 0 then head else es[i].next
    ensures ListOk(es', head', b, l')
  {
    assert Place(es, b, l, k);
    forall m: nat ensures Place(es', b, l', m) {
      if m < |l'| {
        var n := if m < k then m else m + 1;
        assert Place(es, b, l, n) && l'[m] == l[n];
        NextPlaces(l, k, l', m);
        assert n != k && l[n] != l[k];
      }
    }
  }

  lemma NextPlaces(l: seq<nat>, k: nat, l': seq<nat>, m: nat)
    requires k < |l| && l' == l[..k] + l[k + 1..] && m < |l'|
    ensures m > 0 ==> l'[m - 1] == if m - 1 < k then l[m - 1] else l[m]
    ensures m + 1 < |l'| ==> l'[m + 1] == if m + 1 < k then l[m + 1] else l[m + 2]
  {
  }

  // ---------------------------------------------------------------- the free entries

  /** While an entry is in use there is room on the stack. */
  lemma StackHasRoom(es: seq<Entry>, stack: seq<nat>, top: nat, i: nat)
    requires FreeOk(es, stack, top) && i < |es| && es[i].used
    ensures top < |es|
  {
    var free := Firsts(stack, top);
    forall x | x in free ensures x < |es| && x != i { var k :| 0 <= k < top && stack[k] == x; }
    AtMost(free + {i}, |es|);
  }

  lemma {:induction false} Firsts(stack: seq<nat>, top: nat) returns (s: set<nat>)
    requires top <= |stack| && forall j, k :: 0 <= j < k < top ==> stack[j] != stack[k]
    ensures |s| == top && forall x {:trigger x in s} :: x in s ==> exists k :: 0 <= k < top && stack[k] == x
    decreases top
  {
    s := {};
    if top > 0 {
      var s' := Firsts(stack, top - 1);
      assert stack[top - 1] !in s';
      s := s' + {stack[top - 1]};
    }
  }

  lemma {:induction false} AtMost(s: set<nat>, n: nat)
    requires forall x {:trigger x in s} :: x in s ==> x < n
    ensures |s| <= n
    decreases n
  {
    if n == 0 { assert s == {}; } else { AtMost(s - {n - 1}, n - 1); }
  }

  /** Entry i goes onto the stack. */
  lemma Freed(es: seq<Entry>, stack: seq<nat>, top: nat, i: nat, es': seq<Entry>, stack': seq<nat>)
    requires FreeOk(es, stack, top) && i < |es| && es[i].used && top < |es| && stack' == stack[top := i]
    requires |es'| == |es| && !es'[i].used && forall j {:trigger es'[j]} :: 0 <= j < |es| && j != i ==> es'[j].used == es[j].used
    ensures FreeOk(es', stack', top + 1)
  {
    var n := top + 1;
    forall k {:trigger stack'[k]} | 0 <= k < n ensures stack'[k] < |es'| && !es'[stack'[k]].used {
      if k < top { assert stack'[k] == stack[k]; }
    }
    forall j {:trigger es'[j]} | 0 <= j < |es'| && !es'[j].used ensures j in stack'[..n] {
      if j == i { assert stack'[..n][top] == i; }
      else { var k :| 0 <= k < top && stack[..top][k] == j; assert stack'[..n][k] == j; }
    }
  }

  /** The entry on top of the stack is taken into use. */
  lemma Taken(es: seq<Entry>, stack: seq<nat>, top: nat, i: nat, es': seq<Entry>)
    requires FreeOk(es, stack, top) && top > 0 && i == stack[top - 1]
    requires |es'| == |es| && es'[i].used && forall j {:trigger es'[j]} :: 0 <= j < |es| && j != i ==> es'[j].used == es[j].used
    ensures FreeOk(es', stack, top - 1)
  {
    var n := top - 1;
    forall j {:trigger es'[j]} | 0 <= j < |es'| && !es'[j].used ensures j in stack[..n] {
      var k :| 0 <= k < top && stack[..top][k] == j;
      assert stack[..n][k] == j;
    }
  }

  lemma UsedSame(es: seq<Entry>, stack: seq<nat>, top: nat, es': seq<Entry>)
    requires FreeOk(es, stack, top) && |es'| == |es| && forall j {:trigger es'[j]} :: 0 <= j < |es| ==> es'[j].used == es[j].used
    ensures FreeOk(es', stack, top)
  {
    forall j {:trigger es'[j]} | 0 <= j < |es'| && !es'[j].used ensures j in stack[..top] { assert !es[j].used; }
  }

  /** An entry on no list may change but for that. */
  lemma Apart(es: seq<Entry>, bs: seq<int>, lists: seq<seq<nat>>, i: nat, e: Entry)
    requires Linked(es, bs, lists) && i < |es| && es[i].bucket == -1 && e.bucket == -1 && (e.used ==> e.interval >= 1)
    ensures Linked(es[i := e], bs, lists)
  {
    var es' := es[i := e];
    forall b {:trigger lists[b]} | 0 <= b < |lists| ensures ListOk(es', bs[b], b, lists[b]) {
      assert ListOk(es, bs[b], b, lists[b]);
      ListStays(es, es', bs[b], b, lists[b]);
    }
    forall j: nat ensures EntryOk(es', lists, j) { assert EntryOk(es, lists, j); }
  }

  // ---------------------------------------------------------------- what a tick does to one timer

  function Remaining(t: Timer): int {
    if t.times > 0 then t.times - 1 else -1
  }

  /** What becomes of a timer whose callback did a, with `remain` fires to come. */
  function Continued(t: Timer, remain: int, now: nat, a: Action): Option<Timer> {
    if remain == 0 then None
    else match a
      case Nothing => Some(t.(due := now + t.interval))
      case RemoveSelf => None
      case Change(interval, atOnce) => Some(t.(interval := AtLeast1(interval), due := now + (if atOnce then 1 else AtLeast1(interval))))
  }

  /** A timer after it fired at tick `now` and its callback did a. */
  function Fired(t: Timer, now: nat, a: Action): Option<Timer> {
    Continued(t.(times := if t.times > 0 then t.times - 1 else 0), Remaining(t), now, a)
  }

  /** A timer fires at the tick it is due at, and only then. */
  function Ticked(t: Option<Timer>, now: nat, a: Action): Option<Timer> {
    if t.Some? && t.value.due == now then Fired(t.value, now, a) else t
  }

  function Timers(es: seq<Entry>): (r: seq<Option<Timer>>)
    ensures |r| == |es| && forall i {:trigger r[i]} :: 0 <= i < |es| ==> r[i] == TimerOf(es[i])
  {
    seq(|es|, i requires 0 <= i < |es| => TimerOf(es[i]))
  }

  ghost predicate AllLinked(es: seq<Entry>) {
    forall i {:trigger es[i]} :: 0 <= i < |es| && es[i].used ==> es[i].bucket >= 0
  }

  /** Entry i is on no list, or at place k of its list. */
  ghost predicate OnPlace(es: seq<Entry>, lists: seq<seq<nat>>, i: nat, k: nat) {
    i < |es| && (es[i].bucket >= 0 ==> es[i].bucket < |lists| && k < |lists[es[i].bucket]| && lists[es[i].bucket][k] == i)
  }

  ghost function Without(lists: seq<seq<nat>>, b: int, k: nat): seq<seq<nat>> {
    if 0 <= b < |lists| && k < |lists[b]| then lists[b := lists[b][..k] + lists[b][k + 1..]] else lists
  }

  class Wheel {
    var entries: seq<Entry>
    var buckets: seq<int>
    var freeStack: seq<nat>
    var freeTop: nat
    var tick: nat
    ghost var lists: seq<seq<nat>>

    /** An entry whose timer is firing may be off the lists. */
    ghost predicate Sound()
      reads this
    {
      Linked(entries, buckets, lists) && FreeOk(entries, freeStack, freeTop)
    }

    ghost predicate Valid()
      reads this
    {
      && Sound() && AllLinked(entries)
      && forall i {:trigger entries[i]} :: 0 <= i < |entries| && entries[i].used ==> entries[i].nextTick > tick
    }

    constructor (tabSize: int, maxCount: int)
      ensures Valid() && tick == 0
      ensures |entries| == (if maxCount < 16 then 16 else maxCount) && forall i {:trigger entries[i]} :: 0 <= i < |entries| ==> !entries[i].used
    {
      var n, m := if tabSize < 16 then 16 else tabSize, if maxCount < 16 then 16 else maxCount;
      entries, buckets := seq(m, _ => BLANK), seq(n, _ => -1);
      freeStack, freeTop, tick := seq(m, i requires 0 <= i < m => m - 1 - i), m, 0;
      lists := seq(n, _ => []);
      new;
      forall i: nat ensures EntryOk(entries, lists, i) { }
      forall i | 0 <= i < m ensures i in freeStack[..m] { assert freeStack[..m][m - 1 - i] == i; }
    }

    method Link(i: nat)
      requires Sound() && i < |entries| && entries[i].used && entries[i].bucket == -1
      modifies this`entries, this`buckets, this`lists
      ensures Sound() && OthersSame(old(entries), entries, i)
      ensures var b := entries[i].nextTick % |old(lists)|;
        entries[i] == old(entries)[i].(bucket := b, prev := -1, next := entries[i].next) && lists == old(lists)[b := [i] + old(lists)[b]]
    {
      ghost var was := entries;
      var e := entries[i];
      var b := e.nextTick % |buckets|;
      var h := buckets[b];
      assert ListOk(entries, buckets[b], b, lists[b]) && Place(entries, b, lists[b], 0);
      if h >= 0 { entries := entries[h := entries[h].(prev := i)]; }
      ghost var es1 := entries;
      entries := entries[i := e.(bucket := b, prev := -1, next := h)];
      LinkOk(was, buckets, lists, i, b, es1, entries);
      UsedSame(was, freeStack, freeTop, entries);
      buckets := buckets[b := i];
      lists := lists[b := [i] + lists[b]];
    }

    /** Takes entry i, at place k of its list if it is on one, off it. */
    method Unlink(i: nat, ghost k: nat)
      requires Sound() && OnPlace(entries, lists, i, k)
      modifies this`entries, this`buckets, this`lists
      ensures Sound() && OthersSame(old(entries), entries, i) && entries[i] == old(entries)[i].(bucket := -1, prev := -1, next := -1)
      ensures lists == Without(old(lists), old(entries)[i].bucket, k)
    {
      ghost var was := entries;
      assert EntryOk(entries, lists, i);
      var e := entries[i];
      if e.bucket < 0 {
        Apart(entries, buckets, lists, i, e.(prev := -1, next := -1));
        entries := entries[i := e.(prev := -1, next := -1)];
        UsedSame(was, freeStack, freeTop, entries);
        return;
      }
      ghost var b, l, bs := e.bucket, lists[e.bucket], buckets;
      Neighbours(was, buckets, b, l, i, k);
      if e.prev >= 0 {
        entries := entries[e.prev := entries[e.prev].(next := e.next)];
      } else if buckets[e.bucket] == i {
        buckets := buckets[e.bucket := e.next];
      }
      if e.next >= 0 { entries := entries[e.next := entries[e.next].(prev := e.prev)]; }
      entries := entries[i := entries[i].(bucket := -1, prev := -1, next := -1)];
      ghost var l' := l[..k] + l[k + 1..];
      CutMade(was, l, k, i, entries);
      UnlinkOk(was, bs, lists, i, k, b, entries, buckets, l');
      UsedSame(was, freeStack, freeTop, entries);
      lists := lists[b := l'];
    }

    /** Entry i is free again. */
    method Release(i: nat, ghost k: nat)
      requires Sound() && OnPlace(entries, lists, i, k) && entries[i].used
      modifies this`entries, this`buckets, this`lists, this`freeStack, this`freeTop
      ensures Sound() && OthersSame(old(entries), entries, i) && !entries[i].used
      ensures lists == Without(old(lists), old(entries)[i].bucket, k)
    {
      Unlink(i, k);
      ghost var was := entries;
      Apart(entries, buckets, lists, i, BLANK);
      StackHasRoom(entries, freeStack, freeTop, i);
      entries := entries[i := BLANK];
      if freeTop < |entries| {
        Freed(was, freeStack, freeTop, i, entries, freeStack[freeTop := i]);
        freeStack := freeStack[freeTop := i];
        freeTop := freeTop + 1;
      }
    }

    /** A timer for `times` fires (0 for ever), the first after `startTime` ticks, or after one
        interval when that is negative; -1 when there is no entry left for it. */
    method SetTimer(interval: int, startTime: int, times: int, obj: nat) returns (index: int)
      requires Valid()
      modifies this
      ensures Valid() && tick == old(tick)
      ensures index == -1 <==> None !in old(Timers(entries))
      ensures index == -1 ==> entries == old(entries)
      ensures index != -1 ==> Added(old(Timers(entries)), Timers(entries), index, NewTimer(tick, interval, startTime, times, obj))
    {
      var iv := AtLeast1(interval);
      var delay := if startTime < 0 then iv else startTime;
      if freeTop <= 0 {
        NoneFree(entries, freeStack, freeTop);
        return -1;
      }
      assert Timers(entries)[freeStack[freeTop - 1]] == None;
      index := Arm(iv, tick + (if delay > 0 then delay else 1), if times < 0 then 0 else times, obj);
    }

    /** Takes the entry on top of the stack for a timer. */
    method Arm(interval: nat, due: nat, times: nat, obj: nat) returns (i: nat)
      requires Valid() && freeTop > 0 && interval >= 1 && due > tick
      modifies this`entries, this`buckets, this`lists, this`freeTop
      ensures Valid() && Added(old(Timers(entries)), Timers(entries), i, Timer(due, interval, times, obj))
    {
      ghost var was := entries;
      freeTop := freeTop - 1;
      i := freeStack[freeTop];
      assert EntryOk(entries, lists, i);
      var e := Entry(true, interval, times, due, obj, -1, -1, -1);
      Apart(entries, buckets, lists, i, e);
      entries := entries[i := e];
      Taken(was, freeStack, freeTop + 1, i, entries);
      ghost var es1 := entries;
      Link(i);
      Through(was, was, es1, entries, i);
      OneTimer(was, entries, i);
    }

    /** Ends the timer at `index`, if there is one, and it is the caller's. */
    method RemoveTimer(index: int, obj: nat) returns (r: int)
      requires Valid()
      modifies this
      ensures Valid() && tick == old(tick)
      ensures r == if Owns(old(Timers(entries)), index, obj) then 0 else -1
      ensures Timers(entries) == if r == 0 then old(Timers(entries))[index := None] else old(Timers(entries))
    {
      if !(0 <= index < |entries|) || !entries[index].used || (obj != 0 && entries[index].obj != obj) { return -1; }
      ghost var was := entries;
      ghost var k := PlaceOf(entries, buckets, lists, index);
      Release(index, k);
      OneTimer(was, entries, index);
      r := 0;
    }

    /** Gives the timer at `index` a new interval, which starts now. */
    method ChangeInterval(index: int, obj: nat, interval: int, atOnce: bool) returns (r: int)
      requires Valid()
      modifies this
      ensures Valid() && tick == old(tick)
      ensures r == if Owns(old(Timers(entries)), index, obj) then 0 else -1
      ensures Timers(entries) == if r != 0 then old(Timers(entries)) else
        var t := old(Timers(entries))[index].value;
        var iv := if interval < 1 then 1 else interval;
        old(Timers(entries))[index := Some(t.(interval := iv, due := tick + (if atOnce then 1 else iv)))]
    {
      if !(0 <= index < |entries|) || !entries[index].used || (obj != 0 && entries[index].obj != obj) { return -1; }
      ghost var was := entries;
      ghost var k := PlaceOf(entries, buckets, lists, index);
      Rearm(index, AtLeast1(interval), atOnce, k);
      OneTimer(was, entries, index);
      r := 0;
    }

    /** Puts entry i, on a list or firing, onto the list of its new due tick. */
    method Rearm(i: nat, interval: nat, atOnce: bool, ghost k: nat)
      requires Sound() && OnPlace(entries, lists, i, k) && entries[i].used && interval >= 1
      modifies this`entries, this`buckets, this`lists
      ensures Sound() && OthersSame(old(entries), entries, i) && entries[i].used && entries[i].bucket >= 0
      ensures TimerOf(entries[i]) == Some(TimerOf(old(entries)[i]).value.(interval := interval, due := tick + (if atOnce then 1 else interval)))
      ensures var l := Without(old(lists), old(entries)[i].bucket, k); var b := entries[i].bucket; b < |l| && lists == l[b := [i] + l[b]]
    {
      ghost var was := entries;
      Unlink(i, k);
      ghost var es1 := entries;
      var e := entries[i].(interval := interval, nextTick := tick + (if atOnce then 1 else interval));
      Apart(entries, buckets, lists, i, e);
      entries := entries[i := e];
      UsedSame(es1, freeStack, freeTop, entries);
      ghost var es2 := entries;
      Link(i);
      Through(was, es1, es2, entries, i);
    }

    /** Entry i, at place k of its list, fires: it is taken off, and its callback run with the
        number of fires still to come; then it is free, or on the list of its next tick. */
    method Fire(i: nat, ghost k: nat, act: nat -> Action) returns (remain: int)
      requires Sound() && AllLinked(entries) && OnPlace(entries, lists, i, k) && entries[i].used
      modifies this`entries, this`buckets, this`lists, this`freeStack, this`freeTop
      ensures Sound() && AllLinked(entries) && OthersSame(old(entries), entries, i)
      ensures remain == Remaining(TimerOf(old(entries)[i]).value)
      ensures TimerOf(entries[i]) == Fired(TimerOf(old(entries)[i]).value, tick, act(i))
      ensures Relinked(Without(old(lists), old(entries)[i].bucket, k), lists, i)
    {
      ghost var was := entries;
      assert EntryOk(entries, lists, i);
      Unlink(i, k);
      ghost var es1 := entries;
      var e := entries[i];
      remain := if e.times > 0 then e.times - 1 else -1;
      if e.times > 0 {
        Apart(entries, buckets, lists, i, e.(times := e.times - 1));
        entries := entries[i := e.(times := e.times - 1)];
        UsedSame(es1, freeStack, freeTop, entries);
      }
      ghost var es2 := entries;
      AfterCallback(i, remain, act(i));
      Through(was, es1, es2, entries, i);
    }

    /** The callback of the firing entry i does a; what is left to do is done for it. */
    method AfterCallback(i: nat, remain: int, a: Action)
      requires Sound() && i < |entries| && entries[i].used && entries[i].bucket == -1
      modifies this`entries, this`buckets, this`lists, this`freeStack, this`freeTop
      ensures Sound() && OthersSame(old(entries), entries, i) && (entries[i].used ==> entries[i].bucket >= 0)
      ensures TimerOf(entries[i]) == Continued(TimerOf(old(entries)[i]).value, remain, tick, a)
      ensures Relinked(old(lists), lists, i)
    {
      ghost var was, l0 := entries, lists;
      assert EntryOk(entries, lists, i);
      match a {
        case Nothing =>
        case RemoveSelf => Release(i, 0);
        case Change(interval, atOnce) => Rearm(i, AtLeast1(interval), atOnce, 0);
      }
      ghost var es1, l1 := entries, lists;
      if remain == 0 {
        if entries[i].used {
          Release(i, 0);
          HeadOff(l0, l1, es1[i].bucket, i);
        }
      } else if entries[i].used && entries[i].bucket < 0 {
        Rearm(i, if entries[i].interval > 0 then entries[i].interval else 1, false, 0);
      }
      Through(was, es1, es1, entries, i);
    }

    /** One tick: the timers due now fire, each once, with their callbacks' effects `act`. `calls`
        lists the callbacks run, and the numbers of fires to come they were given. */
    method TimerTick(act: nat -> Action) returns (calls: seq<(nat, int)>)
      requires Valid()
      modifies this
      ensures Valid() && tick == old(tick) + 1
      ensures TickedBut(old(Timers(entries)), Timers(entries), tick, act, [])
      ensures CalledBut(calls, old(Timers(entries)), tick, [])
      ensures forall i: nat :: Due(old(Timers(entries)), i, tick) && act(i).RemoveSelf? ==> Timers(entries)[i] == None
    {
      ghost var ts, was := Timers(entries), tick;
      tick := tick + 1;
      var b := tick % |buckets|;
      ghost var pre, rest := [], lists[b];
      var idx := buckets[b];
      calls := [];
      OnlyInList(entries, buckets, lists, b, tick, act);
      AllAhead(entries, lists, was);
      while idx >= 0
        invariant Sound() && AllLinked(entries) && tick == was + 1 && |lists| == |old(lists)| && b < |lists|
        invariant lists[b] == pre + rest && idx == FirstOf(rest)
        invariant TickedBut(ts, Timers(entries), tick, act, rest) && CalledBut(calls, ts, tick, rest)
        decreases |rest|
      {
        calls, idx, pre, rest := Visit(idx, act, calls, ts, b, pre, rest);
      }
      assert rest == [];
      NoneLate(ts, entries, was, tick, act);
    }

    /** The entry idx, next on list b, is due now and fires, or waits for another lap. */
    method Visit(idx: nat, act: nat -> Action, calls: seq<(nat, int)>, ghost ts: seq<Option<Timer>>, ghost b: nat, ghost pre: seq<nat>, ghost rest: seq<nat>)
      returns (calls': seq<(nat, int)>, next: int, ghost pre': seq<nat>, ghost rest': seq<nat>)
      requires Sound() && AllLinked(entries) && b < |lists| && lists[b] == pre + rest && rest != [] && idx == rest[0]
      requires TickedBut(ts, Timers(entries), tick, act, rest) && CalledBut(calls, ts, tick, rest)
      modifies this`entries, this`buckets, this`lists, this`freeStack, this`freeTop
      ensures Sound() && AllLinked(entries) && |lists| == |old(lists)| && rest' == rest[1..]
      ensures lists[b] == pre' + rest' && next == FirstOf(rest')
      ensures TickedBut(ts, Timers(entries), tick, act, rest') && CalledBut(calls', ts, tick, rest')
    {
      ghost var was, l0 := entries, lists;
      InList(entries, buckets, lists, b, pre, rest, idx);
      var e := entries[idx];
      next, calls' := e.next, calls;
      pre', rest' := pre, rest[1..];
      if e.nextTick != tick {
        pre' := pre + [idx];
        assert pre' + rest' == pre + rest;
      } else {
        var remain := Fire(idx, |pre|, act);
        calls' := calls + [(idx, remain)];
        OneTimer(was, entries, idx);
        pre' := FiredOff(l0, lists, b, pre, rest, idx);
      }
      assert idx in rest && Timers(was)[idx] == ts[idx];
      OneTicked(ts, Timers(was), Timers(entries), tick, act, rest, calls, calls');
    }
  }

  function NewTimer(now: nat, interval: int, startTime: int, times: int, obj: nat): Timer {
    Timer(now + FirstDelay(interval, startTime), AtLeast1(interval), if times < 0 then 0 else times, obj)
  }

  /** How many ticks a new timer waits: at least one. */
  function FirstDelay(interval: int, startTime: int): nat {
    if startTime < 0 then AtLeast1(interval) else AtLeast1(startTime)
  }

  /** A free place of ts now holds timer t. */
  ghost predicate Added(ts: seq<Option<Timer>>, ts': seq<Option<Timer>>, i: int, t: Timer) {
    0 <= i < |ts| && ts[i] == None && ts' == ts[i := Some(t)]
  }

  lemma NoneFree(es: seq<Entry>, stack: seq<nat>, top: nat)
    requires FreeOk(es, stack, top) && top == 0
    ensures None !in Timers(es)
  {
    forall i | 0 <= i < |es| ensures Timers(es)[i] != None { assert stack[..top] == []; }
  }

  ghost predicate Owns(ts: seq<Option<Timer>>, index: int, obj: nat) {
    0 <= index < |ts| && ts[index].Some? && (obj == 0 || ts[index].value.obj == obj)
  }

  /** The lists are the same, or entry i is a new head of one of them. */
  ghost predicate Relinked(l: seq<seq<nat>>, l': seq<seq<nat>>, i: nat) {
    l' == l || exists b :: 0 <= b < |l| && l' == l[b := [i] + l[b]]
  }

  lemma HeadOff(l0: seq<seq<nat>>, l1: seq<seq<nat>>, b: int, i: nat)
    requires b >= 0 ==> b < |l0| && l1 == l0[b := [i] + l0[b]]
    requires b < 0 ==> l1 == l0
    ensures Without(l1, b, 0) == if b < 0 then l1 else l0
  {
    if b >= 0 { assert l1[b][..0] + l1[b][1..] == l0[b]; }
  }

  lemma OneTimer(es: seq<Entry>, es': seq<Entry>, i: nat)
    requires OthersSame(es, es', i) && i < |es|
    ensures Timers(es') == Timers(es)[i := TimerOf(es'[i])]
  {
  }

  lemma Through(es: seq<Entry>, es1: seq<Entry>, es2: seq<Entry>, es3: seq<Entry>, i: nat)
    requires OthersSame(es, es1, i) && OthersSame(es2, es3, i) && i < |es| && |es2| == |es1|
    requires forall j {:trigger es2[j]} :: 0 <= j < |es1| && j != i ==> es2[j] == es1[j]
    ensures OthersSame(es, es3, i)
  {
  }

  lemma PlaceOf(es: seq<Entry>, bs: seq<int>, lists: seq<seq<nat>>, i: nat) returns (k: nat)
    requires Linked(es, bs, lists) && i < |es|
    ensures OnPlace(es, lists, i, k)
  {
    assert EntryOk(es, lists, i);
    k := 0;
    if es[i].bucket >= 0 { k :| 0 <= k < |lists[es[i].bucket]| && lists[es[i].bucket][k] == i; }
  }

  /** What the two writes to the neighbours and the one to entry i amount to. */
  lemma CutMade(es: seq<Entry>, l: seq<nat>, k: nat, i: nat, es': seq<Entry>)
    requires k < |l| && l[k] == i < |es|
    requires (k > 0 ==> l[k - 1] < |es| && l[k - 1] != i) && (k + 1 < |l| ==> l[k + 1] < |es| && l[k + 1] != i)
    requires k > 0 && k + 1 < |l| ==> l[k - 1] != l[k + 1]
    requires var es1 := if k > 0 then es[l[k - 1] := es[l[k - 1]].(next := es[i].next)] else es;
             var es2 := if k + 1 < |l| then es1[l[k + 1] := es1[l[k + 1]].(prev := es[i].prev)] else es1;
             es' == es2[i := es2[i].(bucket := -1, prev := -1, next := -1)]
    ensures Cut(es, l, k, es') && es'[i] == es[i].(bucket := -1, prev := -1, next := -1) && OthersSame(es, es', i)
  {
  }

  lemma Neighbours(es: seq<Entry>, bs: seq<int>, b: nat, l: seq<nat>, i: nat, k: nat)
    requires b < |bs| && ListOk(es, bs[b], b, l) && k < |l| && l[k] == i
    ensures i < |es| && es[i].prev == (if k > 0 then l[k - 1] else -1) && es[i].next == (if k + 1 < |l| then l[k + 1] else -1)
    ensures (k > 0 ==> l[k - 1] < |es| && l[k - 1] != i) && (k + 1 < |l| ==> l[k + 1] < |es| && l[k + 1] != i) && (k == 0 ==> bs[b] == i)
    ensures k > 0 && k + 1 < |l| ==> l[k - 1] != l[k + 1]
  {
    assert Place(es, b, l, k) && Place(es, b, l, k + 1) && (k > 0 ==> Place(es, b, l, k - 1));
  }

  // ---------------------------------------------------------------- a tick over the lists

  function FirstOf(l: seq<nat>): int {
    if l == [] then -1 else l[0]
  }

  /** The timers ts became ts' by a tick, but for those still in rest. */
  ghost predicate TickedBut(ts: seq<Option<Timer>>, ts': seq<Option<Timer>>, now: nat, act: nat -> Action, rest: seq<nat>) {
    |ts'| == |ts| && forall i {:trigger ts'[i]} :: 0 <= i < |ts| ==> ts'[i] == if i in rest then ts[i] else Ticked(ts[i], now, act(i))
  }

  ghost predicate Due(ts: seq<Option<Timer>>, i: nat, now: nat) {
    i < |ts| && ts[i].Some? && ts[i].value.due == now
  }

  /** The calls are those of the timers due, but for those in rest, each once, with the number of
      fires to come. */
  ghost predicate CalledBut(calls: seq<(nat, int)>, ts: seq<Option<Timer>>, now: nat, rest: seq<nat>) {
    && (forall j, k :: 0 <= j < k < |calls| ==> calls[j].0 != calls[k].0)
    && (forall j {:trigger calls[j]} :: 0 <= j < |calls| ==> Due(ts, calls[j].0, now) && calls[j].0 !in rest && calls[j].1 == Remaining(ts[calls[j].0].value))
    && (forall i: nat {:trigger Due(ts, i, now)} :: Due(ts, i, now) && i !in rest ==> exists j :: 0 <= j < |calls| && calls[j].0 == i)
  }

  /** Every timer due now is on the list of this tick. */
  lemma OnlyInList(es: seq<Entry>, bs: seq<int>, lists: seq<seq<nat>>, b: nat, now: nat, act: nat -> Action)
    requires Linked(es, bs, lists) && AllLinked(es) && b == now % |lists|
    ensures TickedBut(Timers(es), Timers(es), now, act, lists[b]) && CalledBut([], Timers(es), now, lists[b])
    ensures bs[b] == FirstOf(lists[b])
  {
    assert ListOk(es, bs[b], b, lists[b]);
    forall i: nat | Due(Timers(es), i, now) ensures i in lists[b] { assert EntryOk(es, lists, i); }
    forall i | 0 <= i < |es| ensures Timers(es)[i] == if i in lists[b] then Timers(es)[i] else Ticked(Timers(es)[i], now, act(i)) {
      assert Due(Timers(es), i, now) ==> i in lists[b];
    }
  }

  lemma AllAhead(es: seq<Entry>, lists: seq<seq<nat>>, was: nat)
    requires forall i: nat {:trigger EntryOk(es, lists, i)} :: EntryOk(es, lists, i)
    requires forall i {:trigger es[i]} :: 0 <= i < |es| && es[i].used ==> es[i].nextTick > was
    ensures forall i {:trigger Timers(es)[i]} :: 0 <= i < |es| && Timers(es)[i].Some? ==> Timers(es)[i].value.due > was && Timers(es)[i].value.interval >= 1
  {
    forall i {:trigger Timers(es)[i]} | 0 <= i < |es| && Timers(es)[i].Some? ensures Timers(es)[i].value.due > was && Timers(es)[i].value.interval >= 1 {
      assert EntryOk(es, lists, i);
    }
  }

  lemma InList(es: seq<Entry>, bs: seq<int>, lists: seq<seq<nat>>, b: nat, pre: seq<nat>, rest: seq<nat>, i: nat)
    requires Linked(es, bs, lists) && b < |lists| && lists[b] == pre + rest && rest != [] && rest[0] == i
    ensures OnPlace(es, lists, i, |pre|) && es[i].used && es[i].bucket == b && es[i].next == FirstOf(rest[1..])
    ensures i !in rest[1..]
  {
    var l, k := lists[b], |pre|;
    assert ListOk(es, bs[b], b, l) && Place(es, b, l, k);
    assert l[k] == i && EntryOk(es, lists, i);
    assert k + 1 < |l| ==> l[k + 1] == rest[1];
    forall j | 0 <= j < |rest[1..]| ensures rest[1..][j] != i { assert l[k + 1 + j] == rest[1..][j]; }
  }

  lemma FiredOff(l0: seq<seq<nat>>, l1: seq<seq<nat>>, b: nat, pre: seq<nat>, rest: seq<nat>, i: nat) returns (pre': seq<nat>)
    requires b < |l0| && l0[b] == pre + rest && rest != [] && Relinked(Without(l0, b, |pre|), l1, i)
    ensures |l1| == |l0| && l1[b] == pre' + rest[1..]
  {
    var w := Without(l0, b, |pre|);
    assert w[b] == pre + rest[1..];
    if l1[b] == w[b] {
      pre' := pre;
    } else {
      pre' := [i] + pre;
      assert [i] + w[b] == pre' + rest[1..];
    }
  }

  lemma OneTicked(ts: seq<Option<Timer>>, ts1: seq<Option<Timer>>, ts2: seq<Option<Timer>>, now: nat, act: nat -> Action, rest: seq<nat>, calls: seq<(nat, int)>, calls': seq<(nat, int)>)
    requires TickedBut(ts, ts1, now, act, rest) && CalledBut(calls, ts, now, rest) && rest != [] && rest[0] < |ts| && ts[rest[0]].Some? && rest[0] !in rest[1..]
    requires var i := rest[0]; ts2 == ts1[i := Ticked(ts1[i], now, act(i))]
    requires var i := rest[0]; calls' == if ts[i].value.due == now then calls + [(i, Remaining(ts[i].value))] else calls
    ensures TickedBut(ts, ts2, now, act, rest[1..]) && CalledBut(calls', ts, now, rest[1..])
  {
    var i := rest[0];
    assert forall x :: x in rest <==> x == i || x in rest[1..];
    forall x: nat | Due(ts, x, now) && x !in rest[1..] ensures exists j :: 0 <= j < |calls'| && calls'[j].0 == x {
      if x == i { assert calls'[|calls|].0 == i; }
      else { var j :| 0 <= j < |calls| && calls[j].0 == x; assert calls'[j].0 == x; }
    }
  }

  /** After a tick nothing is late. */
  lemma NoneLate(ts: seq<Option<Timer>>, es: seq<Entry>, was: nat, now: nat, act: nat -> Action)
    requires TickedBut(ts, Timers(es), now, act, []) && now == was + 1
    requires forall i {:trigger ts[i]} :: 0 <= i < |ts| && ts[i].Some? ==> ts[i].value.due > was && ts[i].value.interval >= 1
    ensures forall i {:trigger es[i]} :: 0 <= i < |es| && es[i].used ==> es[i].nextTick > now
  {
    forall i {:trigger es[i]} | 0 <= i < |es| && es[i].used ensures es[i].nextTick > now {
      assert Timers(es)[i] == Ticked(ts[i], now, act(i));
    }
  }

  // ---------------------------------------------------------------- one timer over many ticks

  /** What the callback of each entry does when it is run at a tick. */
  type Acts = (nat, nat) -> Action

  /** The timer of entry i k ticks after `now`. */
  function AfterTicks(t: Option<Timer>, now: nat, k: nat, acts: Acts, i: nat): Option<Timer>
    decreases k
  {
    if k == 0 then t else Ticked(AfterTicks(t, now, k - 1, acts, i), now + k, acts(now + k, i))
  }

  /** It fires at the k-th tick. */
  ghost predicate FiresAt(t: Option<Timer>, now: nat, k: nat, acts: Acts, i: nat)
    requires k > 0
  {
    var s := AfterTicks(t, now, k - 1, acts, i);
    s.Some? && s.value.due == now + k
  }

  /** The callbacks of entry i after tick `from`, up to tick `to`, leave their timer alone. */
  ghost predicate Quiet(acts: Acts, i: nat, from: nat, to: nat) {
    forall x: nat {:trigger acts(x, i)} :: from < x <= to ==> acts(x, i) == Nothing
  }

  /** How often a timer with first delay d and interval iv has come due in k ticks. */
  function DueCount(d: nat, iv: nat, k: nat): nat
    requires iv >= 1
  {
    if k < d then 0 else (k - d) / iv + 1
  }

  lemma {:induction false} TimerAfter(now: nat, d: nat, iv: nat, n: nat, obj: nat, k: nat, acts: Acts, i: nat)
    requires d >= 1 && iv >= 1 && Quiet(acts, i, now, now + k)
    ensures var m := DueCount(d, iv, k);
            AfterTicks(Some(Timer(now + d, iv, n, obj)), now, k, acts, i)
              == if n > 0 && m >= n then None else Some(Timer(now + d + m * iv, iv, if n > 0 then n - m else 0, obj))
    decreases k
  {
    if k > 0 {
      TimerAfter(now, d, iv, n, obj, k - 1, acts, i);
      var m0, m := DueCount(d, iv, k - 1), DueCount(d, iv, k);
      NextCount(d, iv, k, m0, m);
      assert acts(now + k, i) == Nothing;
    }
  }

  /** The count goes up at ticks d, d + iv, d + 2 iv and so on. */
  lemma NextCount(d: nat, iv: nat, k: nat, m0: nat, m: nat)
    requires d >= 1 && iv >= 1 && k >= 1 && m0 == DueCount(d, iv, k - 1) && m == DueCount(d, iv, k)
    ensures m == if k == d + m0 * iv then m0 + 1 else m0
    ensures k == d + m0 * iv ==> m * iv == m0 * iv + iv
    ensures k <= d + m0 * iv
  {
    if k >= d {
      var x, y := k - d, k - 1 - d;
      assert x == x / iv * iv + x % iv;
      if k > d {
        assert y == y / iv * iv + y % iv;
        var q, r := y / iv, y % iv;
        assert m0 == q + 1 && m0 * iv == q * iv + iv;
        assert x == q * iv + (r + 1);
        if r + 1 < iv { Quotient(x, iv, q, r + 1); } else { assert x == (q + 1) * iv + 0; Quotient(x, iv, q + 1, 0); }
      }
    }
  }

  lemma Quotient(x: nat, iv: nat, q: nat, r: nat)
    requires iv >= 1 && x == q * iv + r && r < iv
    ensures x / iv == q && x % iv == r
  {
    var p, z := x / iv, x % iv;
    assert x == p * iv + z;
    MoreLaps(p, q, iv);
    MoreLaps(q, p, iv);
  }

  lemma {:induction false} MoreLaps(p: int, q: int, iv: int)
    requires iv >= 1
    ensures p > q ==> p * iv >= q * iv + iv
    decreases p - q
  {
    assert (p - 1) * iv == p * iv - iv;
    if p > q + 1 { MoreLaps(p - 1, q, iv); }
  }

  /** A timer due in d ticks and then every iv, for n fires or for ever, fires at ticks d, d + iv and
      so on, and each time its callback is told how many fires are still to come. */
  lemma FiresEvery(now: nat, d: nat, iv: nat, n: nat, obj: nat, k: nat, acts: Acts, i: nat)
    requires k > 0 && d >= 1 && iv >= 1 && Quiet(acts, i, now, now + (k - 1))
    ensures var t := Some(Timer(now + d, iv, n, obj));
            && (FiresAt(t, now, k, acts, i) <==> exists m: nat :: (n == 0 || m < n) && k == d + m * iv)
            && (forall m: nat :: (n == 0 || m < n) && k == d + m * iv ==> Remaining(AfterTicks(t, now, k - 1, acts, i).value) == if n == 0 then -1 else n - 1 - m)
  {
    TimerAfter(now, d, iv, n, obj, k - 1, acts, i);
    var m0 := DueCount(d, iv, k - 1);
    NextCount(d, iv, k, m0, DueCount(d, iv, k));
    forall m: nat | (n == 0 || m < n) && k == d + m * iv ensures m == m0 { SameCount(d, iv, k, m, m0); }
  }

  /** A timer set for n fires fires n times in all, at ticks d, d + iv, ..., d + (n-1) iv after it
      was set; one set for ever fires at all of these. */
  lemma FiresExactly(now: nat, interval: int, startTime: int, times: int, obj: nat, k: nat, acts: Acts, i: nat)
    requires k > 0 && Quiet(acts, i, now, now + (k - 1))
    ensures var iv := if interval < 1 then 1 else interval;
            var d := if startTime < 0 then iv else if startTime == 0 then 1 else startTime;
            FiresAt(Some(NewTimer(now, interval, startTime, times, obj)), now, k, acts, i) <==>
            exists m: nat :: (times <= 0 || m < times) && k == d + m * iv
  {
    var iv := if interval < 1 then 1 else interval;
    var d := if startTime < 0 then iv else if startTime == 0 then 1 else startTime;
    FiresEvery(now, d, iv, if times < 0 then 0 else times, obj, k, acts, i);
  }

  lemma {:induction false} TicksAfterTicks(t: Option<Timer>, now: nat, k: nat, j: nat, acts: Acts, i: nat)
    ensures AfterTicks(t, now, k + j, acts, i) == AfterTicks(AfterTicks(t, now, k, acts, i), now + k, j, acts, i)
    decreases j
  {
    if j > 0 {
      TicksAfterTicks(t, now, k, j - 1, acts, i);
      assert now + k + j == now + (k + j);
    }
  }

  lemma {:induction false} GoneStays(now: nat, j: nat, acts: Acts, i: nat)
    ensures AfterTicks(None, now, j, acts, i) == None
    decreases j
  {
    if j > 0 { GoneStays(now, j - 1, acts, i); }
  }

  /** A timer whose callback removes it, and one that fired for the last time whatever its callback
      did, is gone from then on and never fires again. */
  lemma NeverAgain(t: Option<Timer>, now: nat, k: nat, j: nat, acts: Acts, i: nat)
    requires k > 0 && j > 0 && FiresAt(t, now, k, acts, i)
    requires acts(now + k, i) == RemoveSelf || AfterTicks(t, now, k - 1, acts, i).value.times == 1
    ensures AfterTicks(t, now, k + j - 1, acts, i) == None && !FiresAt(t, now, k + j, acts, i)
  {
    TicksAfterTicks(t, now, k, j - 1, acts, i);
    GoneStays(now + k, j - 1, acts, i);
  }

  /** A timer with fires left whose callback gives it interval c fires next one tick later, or c
      ticks later, and then every c ticks, as often as was left to come. */
  lemma ChangedFires(t: Option<Timer>, now: nat, k: nat, c: int, atOnce: bool, j: nat, acts: Acts, i: nat)
    requires k > 0 && j > 0 && FiresAt(t, now, k, acts, i) && acts(now + k, i) == Change(c, atOnce) && Quiet(acts, i, now + k, now + k + (j - 1))
    requires AfterTicks(t, now, k - 1, acts, i).value.times != 1
    ensures var iv, n := if c < 1 then 1 else c, AfterTicks(t, now, k - 1, acts, i).value.times;
            FiresAt(t, now, k + j, acts, i) <==> exists m: nat :: (n == 0 || m < n - 1) && j == (if atOnce then 1 else iv) + m * iv
  {
    var iv, s := if c < 1 then 1 else c, AfterTicks(t, now, k - 1, acts, i).value;
    var d, n := if atOnce then 1 else iv, if s.times > 0 then s.times - 1 else 0;
    assert AfterTicks(t, now, k, acts, i) == Some(Timer(now + k + d, iv, n, s.obj));
    TicksAfterTicks(t, now, k, j - 1, acts, i);
    assert now + k + j == now + (k + j);
    FiresEvery(now + k, d, iv, n, s.obj, j, acts, i);
  }

  /** A callback that does nothing to its timer lets it fire again after its interval. */
  lemma FiresNext(t: Option<Timer>, now: nat, k: nat, j: nat, acts: Acts, i: nat)
    requires k > 0 && j > 0 && FiresAt(t, now, k, acts, i) && Quiet(acts, i, now + (k - 1), now + k + (j - 1))
    requires var s := AfterTicks(t, now, k - 1, acts, i).value; s.times != 1 && s.interval >= 1
    ensures var s := AfterTicks(t, now, k - 1, acts, i).value;
            FiresAt(t, now, k + j, acts, i) <==> exists m: nat :: (s.times == 0 || m < s.times - 1) && j == s.interval + m * s.interval
  {
    var s := AfterTicks(t, now, k - 1, acts, i).value;
    var n := if s.times > 0 then s.times - 1 else 0;
    assert acts(now + k, i) == Nothing;
    assert AfterTicks(t, now, k, acts, i) == Some(Timer(now + k + s.interval, s.interval, n, s.obj));
    TicksAfterTicks(t, now, k, j - 1, acts, i);
    assert now + k + j == now + (k + j);
    FiresEvery(now + k, s.interval, s.interval, n, s.obj, j, acts, i);
  }

  // ---------------------------------------------------------------- the wheel over many ticks

  ghost predicate Called(calls: seq<(nat, int)>, i: nat) {
    exists j {:trigger calls[j]} :: 0 <= j < |calls| && calls[j].0 == i
  }

  /** After k ticks each entry holds what became of its timer. */
  ghost predicate Turned(ts: seq<Option<Timer>>, ts': seq<Option<Timer>>, now: nat, k: nat, acts: Acts) {
    |ts'| == |ts| && forall i: nat {:trigger ts'[i]} :: i < |ts| ==> ts'[i] == AfterTicks(ts[i], now, k, acts, i)
  }

  /** At each of the first k ticks exactly the callbacks of the timers that fire then were run. */
  ghost predicate AllCalled(ts: seq<Option<Timer>>, now: nat, k: nat, acts: Acts, all: seq<seq<(nat, int)>>) {
    |all| == k && forall n: nat, i: nat {:trigger Called(all[n], i)} :: n < k && i < |ts| ==> (Called(all[n], i) <==> FiresAt(ts[i], now, n + 1, acts, i))
  }

  lemma OneTurn(ts: seq<Option<Timer>>, ts1: seq<Option<Timer>>, ts2: seq<Option<Timer>>, now: nat, k: nat, k1: nat, acts: Acts, act: nat -> Action)
    requires Turned(ts, ts1, now, k, acts) && k1 == k + 1 && TickedBut(ts1, ts2, now + k1, act, []) && forall i: nat {:trigger act(i)} :: act(i) == acts(now + k1, i)
    ensures Turned(ts, ts2, now, k1, acts)
  {
    forall i: nat | i < |ts| ensures ts2[i] == AfterTicks(ts[i], now, k1, acts, i) { assert ts2[i] == Ticked(ts1[i], now + k1, act(i)); }
  }

  lemma OneMoreCalled(ts: seq<Option<Timer>>, ts1: seq<Option<Timer>>, now: nat, k: nat, k1: nat, acts: Acts, all: seq<seq<(nat, int)>>, calls: seq<(nat, int)>)
    requires Turned(ts, ts1, now, k, acts) && k1 == k + 1 && AllCalled(ts, now, k, acts, all) && CalledBut(calls, ts1, now + k1, [])
    ensures AllCalled(ts, now, k1, acts, all + [calls])
  {
    var all' := all + [calls];
    forall n: nat, i: nat | n < k1 && i < |ts| ensures Called(all'[n], i) <==> FiresAt(ts[i], now, n + 1, acts, i) {
      if n < k {
        assert Called(all[n], i) <==> FiresAt(ts[i], now, n + 1, acts, i);
      } else {
        assert ts1[i] == AfterTicks(ts[i], now, k, acts, i);
        assert Due(ts1, i, now + k1) <==> FiresAt(ts[i], now, k1, acts, i);
      }
    }
  }

  /** The wheel turns n ticks: timers fire as each of them does by itself, whatever lists they share,
      and nothing else is called. */
  method Turn(wheel: Wheel, n: nat, acts: Acts) returns (all: seq<seq<(nat, int)>>)
    requires wheel.Valid()
    modifies wheel
    ensures wheel.Valid() && wheel.tick == old(wheel.tick) + n
    ensures Turned(old(Timers(wheel.entries)), Timers(wheel.entries), old(wheel.tick), n, acts)
    ensures AllCalled(old(Timers(wheel.entries)), old(wheel.tick), n, acts, all)
  {
    ghost var ts, now := Timers(wheel.entries), wheel.tick;
    var k := 0;
    all := [];
    while k < n
      invariant k <= n && wheel.Valid() && wheel.tick == now + k && Turned(ts, Timers(wheel.entries), now, k, acts) && AllCalled(ts, now, k, acts, all)
    {
      var k1, next := k + 1, wheel.tick + 1;
      var act := (i: nat) => acts(next, i);
      ghost var ts1 := Timers(wheel.entries);
      var calls := wheel.TimerTick(act);
      OneTurn(ts, ts1, Timers(wheel.entries), now, k, k1, acts, act);
      OneMoreCalled(ts, ts1, now, k, k1, acts, all, calls);
      all, k := all + [calls], k1;
    }
  }

  lemma SameCount(d: nat, iv: nat, k: nat, m: nat, m0: nat)
    requires d >= 1 && iv >= 1 && k == d + m * iv && m0 == DueCount(d, iv, k - 1)
    ensures m0 == m
  {
    if m > 0 {
      var m1 := m - 1;
      assert k - 1 - d == m1 * iv + (iv - 1);
      Quotient(k - 1 - d, iv, m1, iv - 1);
    }
  }
}

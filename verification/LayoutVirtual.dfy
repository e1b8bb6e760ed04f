/**
 Virtual address layout of tools/kenge.py: programs without a fixed address are
 placed one after another, stepping over the programs that have one.
 */
module LayoutVirtual {
  import opened Align

  const MB: nat := 1024 * 1024

  datatype Virt = Ignored | ToAllocate | Fixed(addr: nat)

  /** A program: its addressing attributes and the size of its ELF image. */
  datatype App = App(virt: Virt, align: nat, hint: nat, zoneEnd: bool, size: nat)

  /** `align_zone`: the last program of a zone claims the rest of its 1M region, but for one byte. */
  function AlignZone(app: App, addr: int): int {
    if app.zoneEnd then Up(addr, MB) - 1 else addr
  }

  /** `get_last_virtual_addr` of a program linked at `at`. */
  function Last(app: App, at: int): int {
    AlignZone(app, at + app.size)
  }

  function SizeHint(app: App): nat {
    if app.hint > MB then app.hint else MB
  }

  /** A program pinned at `at`. */
  datatype Pinned = Pinned(at: nat, app: App)

  predicate SortedByAddress(fixed: seq<Pinned>) {
    forall i, j | 0 <= i < j < |fixed| :: fixed[i].at <= fixed[j].at
  }

  /** Does the window of `hint` bytes at `address` meet the range the program claims? */
  predicate Collides(p: Pinned, address: int, hint: int) {
    p.at - hint < address < Last(p.app, p.at)
  }

  /** `check_fixed_collision`: the next hole at or after `address`. */
  function NextHole(fixed: seq<Pinned>, address: int, hint: int): int {
    if fixed == [] then address
    else
      var p := fixed[0];
      if Collides(p, address, hint) then NextHole(fixed[1..], Up(Last(p.app, p.at), p.app.align), hint)
      else if address <= p.at - hint then address
      else NextHole(fixed[1..], address, hint)
  }

  method CheckFixedCollision(address: int, sizeHint: int, fixed: seq<Pinned>) returns (r: int)
    ensures r == NextHole(fixed, address, sizeHint)
  {
    r := address;
    for i := 0 to |fixed|
      invariant NextHole(fixed[i..], r, sizeHint) == NextHole(fixed, address, sizeHint)
    {
      var p := fixed[i];
      assert fixed[i..][1..] == fixed[i + 1..];
      if r < Last(p.app, p.at) && r > p.at - sizeHint {
        r := Up(Last(p.app, p.at), p.app.align);
      } else if r <= p.at - sizeHint {
        break;
      }
    }
  }

  /** The addresses of the programs that follow `prev`, itself linked at `at`. */
  function PlaceAfter(prev: App, at: int, apps: seq<App>, fixed: seq<Pinned>): (r: seq<int>)
    ensures |r| == |apps|
    decreases |apps|
  {
    if apps == [] then []
    else
      var next := NextHole(fixed, Up(Last(prev, at), apps[0].align), SizeHint(prev));
      [next] + PlaceAfter(apps[0], next, apps[1..], fixed)
  }

  function Place(apps: seq<App>, base: int, fixed: seq<Pinned>): (r: seq<int>)
    ensures |r| == |apps|
  {
    if apps == [] then [] else [base] + PlaceAfter(apps[0], base, apps[1..], fixed)
  }

  // ---------------------------------------------------------------- classification

  function Floating(apps: seq<App>): seq<App> {
    if apps == [] then []
    else
      var n := |apps| - 1;
      Floating(apps[..n]) + if apps[n].virt.ToAllocate? then [apps[n]] else []
  }

  function PinnedApps(apps: seq<App>): (r: seq<Pinned>)
    ensures forall p :: p in r <==> p.app in apps && p.app.virt == Fixed(p.at)
  {
    if apps == [] then []
    else
      var n := |apps| - 1;
      assert apps == apps[..n] + [apps[n]];
      PinnedApps(apps[..n]) + if apps[n].virt.Fixed? then [Pinned(apps[n].virt.addr, apps[n])] else []
  }

  function InsertSorted(p: Pinned, s: seq<Pinned>): (r: seq<Pinned>)
    requires SortedByAddress(s)
    ensures SortedByAddress(r)
    ensures forall x :: x in r <==> x == p || x in s
  {
    if s == [] || p.at <= s[0].at then [p] + s
    else
      assert s == [s[0]] + s[1..];
      var t := InsertSorted(p, s[1..]);
      assert forall i | 0 <= i < |t| :: t[i] in t;
      [s[0]] + t
  }

  /** `list.sort` on the address: stable, and a rearrangement of what it sorts. */
  function SortByAddress(s: seq<Pinned>): (r: seq<Pinned>)
    ensures SortedByAddress(r)
    ensures forall x :: x in r <==> x in s
  {
    if s == [] then []
    else
      assert s == [s[0]] + s[1..];
      InsertSorted(s[0], SortByAddress(s[1..]))
  }

  /** Programs at address zero are linked there but not stepped over. */
  function DropZero(s: seq<Pinned>): (r: seq<Pinned>)
    requires SortedByAddress(s)
    ensures SortedByAddress(r)
    ensures forall x :: x in r <==> x in s && x.at != 0
  {
    if s == [] then []
    else
      assert s == [s[0]] + s[1..];
      var t := DropZero(s[1..]);
      assert forall i | 0 <= i < |t| :: t[i] in t;
      if s[0].at == 0 then t else [s[0]] + t
  }

  /** The fixed programs that placement steps over. */
  function Retained(apps: seq<App>): (r: seq<Pinned>)
    ensures SortedByAddress(r)
    ensures forall p :: p in r <==> p.app in apps && p.app.virt == Fixed(p.at) && p.at != 0
  {
    DropZero(SortByAddress(PinnedApps(apps)))
  }

  /** The whole of `LayoutVirtual`: link addresses of the programs to allocate, in order. */
  method Layout(apps: seq<App>, baseVaddr: int) returns (floating: seq<App>, addresses: seq<int>)
    ensures floating == Floating(apps)
    ensures addresses == Place(floating, baseVaddr, Retained(apps))
  {
    floating := [];
    var fixed: seq<Pinned> := [];
    for i := 0 to |apps|
      invariant floating == Floating(apps[..i]) && fixed == PinnedApps(apps[..i])
    {
      assert apps[..i + 1][..i] == apps[..i];
      match apps[i].virt {
        case Ignored =>
        case ToAllocate => floating := floating + [apps[i]];
        case Fixed(addr) => fixed := fixed + [Pinned(addr, apps[i])];
      }
    }
    assert apps[..|apps|] == apps;
    fixed := DropZero(SortByAddress(fixed));
    addresses := PlaceAll(floating, baseVaddr, fixed);
  }

  /** Each program is linked after the one before it; the first gets no collision check. */
  method PlaceAll(floating: seq<App>, baseVaddr: int, fixed: seq<Pinned>) returns (addresses: seq<int>)
    ensures addresses == Place(floating, baseVaddr, fixed)
  {
    hide NextHole, Up, Last;
    addresses := [];
    if floating != [] {
      addresses := [baseVaddr];
      for k := 1 to |floating|
        invariant |addresses| == k
        invariant Place(floating, baseVaddr, fixed) ==
          addresses + PlaceAfter(floating[k - 1], addresses[k - 1], floating[k..], fixed)
      {
        var prev, at := floating[k - 1], addresses[k - 1];
        var next := CheckFixedCollision(Up(Last(prev, at), floating[k].align), SizeHint(prev), fixed);
        assert floating[k..][1..] == floating[k + 1..];
        addresses := addresses + [next];
      }
    }
  }

  /** `fl` is what stands at the rising positions `from`, which are all those of programs to allocate. */
  ghost predicate Picks(apps: seq<App>, from: seq<nat>, fl: seq<App>) {
    && |from| == |fl|
    && (forall k | 0 <= k < |from| :: from[k] < |apps| && fl[k] == apps[from[k]])
    && (forall j, k | 0 <= j < k < |from| :: from[j] < from[k])
    && (forall i: nat | i < |apps| :: i in from <==> apps[i].virt.ToAllocate?)
  }

  /** The programs placed are those to allocate and no others, each as often and in the order given. */
  lemma {:induction false} FloatingAre(apps: seq<App>) returns (from: seq<nat>)
    ensures Picks(apps, from, Floating(apps))
  {
    hide Picks;
    from := [];
    if apps == [] {
      NothingPicked();
    } else {
      var n := |apps| - 1;
      from := FloatingAre(apps[..n]);
      PickOneMore(apps, n, from, Floating(apps[..n]));
      if apps[n].virt.ToAllocate? { from := from + [n]; } else { Assoc(Floating(apps[..n]), [], []); }
    }
  }

  lemma NothingPicked()
    ensures Picks([], [], [])
  {}

  lemma PickOneMore(apps: seq<App>, n: nat, from: seq<nat>, fl: seq<App>)
    requires |apps| == n + 1 && Picks(apps[..n], from, fl)
    ensures if apps[n].virt.ToAllocate? then Picks(apps, from + [n], fl + [apps[n]]) else Picks(apps, from, fl)
  {
    assert forall k | k in from :: k < n;
    assert forall i | 0 <= i < n :: apps[..n][i] == apps[i];
  }

  /** The entries at one address, in order. */
  function AtAddress(s: seq<Pinned>, x: nat): seq<Pinned> {
    if s == [] then [] else OneAt(s[0], x) + AtAddress(s[1..], x)
  }

  function OneAt(p: Pinned, x: nat): seq<Pinned> {
    if p.at == x then [p] else []
  }

  /** The programs fixed at `x`, in order. */
  function FixedAt(apps: seq<App>, x: nat): seq<Pinned> {
    if apps == [] then [] else OneFixedAt(apps[0], x) + FixedAt(apps[1..], x)
  }

  function OneFixedAt(app: App, x: nat): seq<Pinned> {
    if app.virt == Fixed(x) then [Pinned(x, app)] else []
  }

  /** The programs stepped over are in order of address, and at each address but 0 they are the programs fixed
      there, each as often and in the order given; none is at 0. */
  lemma RetainedAre(apps: seq<App>, x: nat)
    ensures SortedByAddress(Retained(apps))
    ensures AtAddress(Retained(apps), x) == if x == 0 then [] else FixedAt(apps, x)
  {
    hide AtAddress, FixedAt, PinnedApps, SortByAddress, DropZero;
    PinnedAt(apps, x);
    SortIsStable(PinnedApps(apps), x);
    DroppedAt(SortByAddress(PinnedApps(apps)), x);
  }

  lemma AtCons(p: Pinned, s: seq<Pinned>, x: nat)
    ensures AtAddress([p] + s, x) == OneAt(p, x) + AtAddress(s, x)
  {
    assert ([p] + s)[1..] == s;
  }

  lemma Uncons<T>(s: seq<T>)
    requires s != []
    ensures s == [s[0]] + s[1..] && s == s[..|s| - 1] + [s[|s| - 1]]
  {}

  lemma Assoc<T>(x: seq<T>, y: seq<T>, z: seq<T>)
    ensures x + (y + z) == x + y + z
    ensures [] + x == x && x + [] == x
  {}

  lemma {:induction false} AtAddressJoins(s: seq<Pinned>, t: seq<Pinned>, x: nat)
    ensures AtAddress(s + t, x) == AtAddress(s, x) + AtAddress(t, x)
  {
    hide AtAddress, OneAt;
    Assoc(t, [], []);
    Assoc(AtAddress(t, x), [], []);
    if s == [] {
      NoneAt(x);
    } else {
      AtAddressJoins(s[1..], t, x);
      Uncons(s);
      Assoc([s[0]], s[1..], t);
      AtCons(s[0], s[1..] + t, x);
      AtCons(s[0], s[1..], x);
      Assoc(OneAt(s[0], x), AtAddress(s[1..], x), AtAddress(t, x));
    }
  }

  lemma NoneAt(x: nat)
    ensures AtAddress([], x) == [] && FixedAt([], x) == []
  {}

  lemma SingleAt(p: Pinned, app: App, x: nat)
    ensures AtAddress([p], x) == OneAt(p, x) && FixedAt([app], x) == OneFixedAt(app, x)
  {
    assert [p][1..] == [] && [app][1..] == [];
  }

  lemma FixedCons(app: App, s: seq<App>, x: nat)
    ensures FixedAt([app] + s, x) == OneFixedAt(app, x) + FixedAt(s, x)
  {
    assert ([app] + s)[1..] == s;
  }

  lemma {:induction false} FixedAtJoins(s: seq<App>, t: seq<App>, x: nat)
    ensures FixedAt(s + t, x) == FixedAt(s, x) + FixedAt(t, x)
  {
    hide FixedAt, OneFixedAt;
    Assoc(t, [], []);
    Assoc(FixedAt(t, x), [], []);
    if s == [] {
      NoneAt(x);
    } else {
      FixedAtJoins(s[1..], t, x);
      Uncons(s);
      Assoc([s[0]], s[1..], t);
      FixedCons(s[0], s[1..] + t, x);
      FixedCons(s[0], s[1..], x);
      Assoc(OneFixedAt(s[0], x), FixedAt(s[1..], x), FixedAt(t, x));
    }
  }

  lemma {:induction false} PinnedAt(apps: seq<App>, x: nat)
    ensures AtAddress(PinnedApps(apps), x) == FixedAt(apps, x)
  {
    hide AtAddress, FixedAt;
    NoneAt(x);
    if apps != [] {
      var n := |apps| - 1;
      var app := apps[n];
      var last := if app.virt.Fixed? then [Pinned(app.virt.addr, app)] else [];
      PinnedAt(apps[..n], x);
      AtAddressJoins(PinnedApps(apps[..n]), last, x);
      FixedAtJoins(apps[..n], [app], x);
      Uncons(apps);
      SingleAt(Pinned(if app.virt.Fixed? then app.virt.addr else 0, app), app, x);
      assert PinnedApps(apps) == PinnedApps(apps[..n]) + last;
    }
  }

  lemma {:induction false} InsertedAt(p: Pinned, s: seq<Pinned>, x: nat)
    requires SortedByAddress(s)
    ensures AtAddress(InsertSorted(p, s), x) == OneAt(p, x) + AtAddress(s, x)
  {
    hide AtAddress;
    AtCons(p, s, x);
    if s != [] && p.at > s[0].at {
      InsertedAt(p, s[1..], x);
      Uncons(s);
      AtCons(s[0], s[1..], x);
      AtCons(s[0], InsertSorted(p, s[1..]), x);
      Assoc(AtAddress(s[1..], x), [], []);
      Assoc(OneAt(p, x) + AtAddress(s[1..], x), [], []);
    }
  }

  lemma {:induction false} SortIsStable(s: seq<Pinned>, x: nat)
    ensures AtAddress(SortByAddress(s), x) == AtAddress(s, x)
  {
    hide AtAddress, InsertSorted, OneAt;
    if s != [] {
      SortIsStable(s[1..], x);
      InsertedAt(s[0], SortByAddress(s[1..]), x);
      Uncons(s);
      AtCons(s[0], s[1..], x);
    }
  }

  lemma {:induction false} DroppedAt(s: seq<Pinned>, x: nat)
    requires SortedByAddress(s)
    ensures AtAddress(DropZero(s), x) == if x == 0 then [] else AtAddress(s, x)
  {
    hide AtAddress;
    NoneAt(x);
    if s != [] {
      DroppedAt(s[1..], x);
      Uncons(s);
      AtCons(s[0], s[1..], x);
      AtCons(s[0], DropZero(s[1..]), x);
      Assoc(AtAddress(s[1..], x), [], []);
    }
  }

  // ---------------------------------------------------------------- one placement

  /** A window that meets no pinned program. */
  ghost predicate Clear(fixed: seq<Pinned>, address: int, hint: int) {
    forall p | p in fixed :: !Collides(p, address, hint)
  }

  /** The address only moves up, and the window where it stops is clear of every pinned program. */
  lemma {:induction false} NextHoleIsClear(fixed: seq<Pinned>, address: int, hint: int)
    requires SortedByAddress(fixed)
    ensures NextHole(fixed, address, hint) >= address
    ensures Clear(fixed, NextHole(fixed, address, hint), hint)
  {
    hide Up;
    if fixed != [] {
      var p, rest := fixed[0], fixed[1..];
      if Collides(p, address, hint) {
        NextHoleIsClear(rest, Up(Last(p.app, p.at), p.app.align), hint);
      } else if address > p.at - hint {
        NextHoleIsClear(rest, address, hint);
      }
      assert forall x | x in fixed :: x == p || x in rest;
    }
  }

  /**
   With one alignment throughout, the early exit costs nothing: the result is
   the least multiple of the alignment, at or after the start, whose window is
   clear. Only the order of the start addresses is used.
   */
  lemma {:induction false} NextHoleIsLeast(fixed: seq<Pinned>, address: int, hint: int, a: nat, m: int)
    requires SortedByAddress(fixed) && Multiple(address, a)
    requires forall p | p in fixed :: p.app.align == a
    ensures Multiple(NextHole(fixed, address, hint), a)
    ensures address <= m && Multiple(m, a) && Clear(fixed, m, hint) ==> NextHole(fixed, address, hint) <= m
  {
    hide Up;
    if fixed != [] {
      var p, rest := fixed[0], fixed[1..];
      assert Clear(fixed, m, hint) ==> Clear(rest, m, hint) && !Collides(p, m, hint);
      if Collides(p, address, hint) {
        var next := Up(Last(p.app, p.at), a);
        if Multiple(m, a) { MultipleGap(m, next, a); }
        NextHoleIsLeast(rest, next, hint, a, m);
      } else if address > p.at - hint {
        NextHoleIsLeast(rest, address, hint, a, m);
      }
    }
  }

  // ---------------------------------------------------------------- the whole layout

  /** An alignment of at least two bytes that divides the 1M zone granule. */
  predicate Granular(a: nat) {
    a >= 2 && Multiple(MB, a)
  }

  lemma {:induction false} NextHoleOnGrid(fixed: seq<Pinned>, address: int, hint: int, app: App)
    requires Granular(app.align) && Multiple(address, app.align)
    requires forall p | p in fixed :: Granular(p.app.align)
    ensures exists a: nat :: Granular(a) && Multiple(NextHole(fixed, address, hint), a)
  {
    hide Up;
    if fixed == [] || (!Collides(fixed[0], address, hint) && address <= fixed[0].at - hint) {
      assert Granular(app.align) && Multiple(NextHole(fixed, address, hint), app.align);
    } else {
      var p, rest := fixed[0], fixed[1..];
      if Collides(p, address, hint) {
        NextHoleOnGrid(rest, Up(Last(p.app, p.at), p.app.align), hint, p.app);
      } else {
        NextHoleOnGrid(rest, address, hint, app);
      }
    }
  }

  /** On the grid, being at or past the claimed end means being past the program, and past its zone. */
  lemma PastLast(app: App, at: int, address: int, a: nat)
    requires Granular(a) && Multiple(address, a) && address >= Last(app, at)
    ensures address >= at + app.size
    ensures app.zoneEnd ==> address >= Up(at + app.size, MB)
  {
    hide Up;
    if app.zoneEnd {
      var end := Up(at + app.size, MB);
      MultipleTrans(end, MB, a);
      MultipleGap(address, end, a);
    }
  }

  lemma {:induction false} PlacedAfter(prev: App, at: int, apps: seq<App>, fixed: seq<Pinned>, i: nat)
    requires SortedByAddress(fixed) && i < |apps|
    requires forall app | app in apps :: Granular(app.align)
    requires forall p | p in fixed :: Granular(p.app.align)
    ensures var r := PlaceAfter(prev, at, apps, fixed);
      && r[0] >= at + prev.size && (prev.zoneEnd ==> r[0] >= Up(at + prev.size, MB))
      && r[i] >= r[0]
      && (i + 1 < |apps| ==>
           r[i + 1] >= r[i] + apps[i].size && (apps[i].zoneEnd ==> r[i + 1] >= Up(r[i] + apps[i].size, MB)))
      && forall p | p in fixed :: ApartFrom(p, r[i], SizeHint(if i == 0 then prev else apps[i - 1]))
    decreases |apps|
  {
    hide Up, Granular, NextHole, Last, SizeHint;
    var hint := SizeHint(prev);
    var start := Up(Last(prev, at), apps[0].align);
    var next := NextHole(fixed, start, hint);
    StartOnGrid(prev, at, apps[0]);
    NextHoleIsClear(fixed, start, hint);
    NextHoleOnGrid(fixed, start, hint, apps[0]);
    var a: nat :| Granular(a) && Multiple(next, a);
    PastLast(prev, at, next, a);
    forall p | p in fixed
      ensures ApartFrom(p, next, hint)
    {
      if next >= Last(p.app, p.at) { PastLast(p.app, p.at, next, a); }
    }
    if i > 0 || 1 < |apps| {
      PlacedAfter(apps[0], next, apps[1..], fixed, if i > 0 then i - 1 else 0);
    }
  }

  /** The window of `hint` bytes at `address` and the program's own bytes are disjoint. */
  predicate ApartFrom(p: Pinned, address: int, hint: int) {
    address + hint <= p.at || p.at + p.app.size <= address
  }

  lemma StartOnGrid(prev: App, at: int, app: App)
    requires Granular(app.align)
    ensures Multiple(Up(Last(prev, at), app.align), app.align) && Up(Last(prev, at), app.align) >= Last(prev, at)
  {}

  /** Bytes [x, x + m) and [y, y + n) have none in common. */
  predicate Disjoint(x: int, m: int, y: int, n: int) {
    x + m <= y || y + n <= x
  }

  /**
   Over a whole layout with granular alignments: the placed programs are
   pairwise disjoint; a zone's last program keeps its successor out of its 1M
   region; and every program but the first, if it is no larger than 1M or its
   predecessor's size hint, is disjoint from every retained fixed program.
   */
  lemma LayoutIsDisjoint(apps: seq<App>, base: int, fixed: seq<Pinned>, i: nat, j: nat)
    requires SortedByAddress(fixed) && i < j < |apps|
    requires forall app | app in apps :: Granular(app.align)
    requires forall p | p in fixed :: Granular(p.app.align)
    ensures var r := Place(apps, base, fixed);
      && r[0] == base && r[i] + apps[i].size <= r[j]
      && (apps[i].zoneEnd ==> r[j] >= Up(r[i] + apps[i].size, 0x10_0000))
      && (apps[j].size <= apps[j - 1].hint || apps[j].size <= 0x10_0000 ==>
            forall p | p in fixed :: Disjoint(r[j], apps[j].size, p.at, p.app.size))
  {
    hide Up, Granular, PlaceAfter;
    var r := Place(apps, base, fixed);
    Increasing(apps, base, fixed, i, j);
    PlacedAfter(apps[0], base, apps[1..], fixed, j - 1);
    var w := SizeHint(apps[j - 1]);
    assert j > 1 ==> apps[1..][j - 2] == apps[j - 1];
    forall p | p in fixed && apps[j].size <= w
      ensures Disjoint(r[j], apps[j].size, p.at, p.app.size)
    {
      assert ApartFrom(p, r[j], w);
    }
  }

  lemma {:induction false} Increasing(apps: seq<App>, base: int, fixed: seq<Pinned>, i: nat, j: nat)
    requires SortedByAddress(fixed) && i < j < |apps|
    requires forall app | app in apps :: Granular(app.align)
    requires forall p | p in fixed :: Granular(p.app.align)
    ensures var r := Place(apps, base, fixed);
      r[i] + apps[i].size <= r[j] && (apps[i].zoneEnd ==> r[j] >= Up(r[i] + apps[i].size, MB))
    decreases j - i
  {
    hide Up, Granular, PlaceAfter;
    var tail := apps[1..];
    assert apps == [apps[0]] + tail;
    if j == i + 1 {
      PlacedAfter(apps[0], base, tail, fixed, if i == 0 then 0 else i - 1);
    } else {
      Increasing(apps, base, fixed, i, j - 1);
      Increasing(apps, base, fixed, j - 1, j);
    }
  }

  /** Where the bytes that a program claims end. */
  function ClaimEnd(app: App, at: int): int {
    if app.zoneEnd then Up(at + app.size, 0x10_0000) else at + app.size
  }

  /** Nothing is stepped over without need: if the window of its predecessor's hint, and of 1M, misses what every
      fixed program claims at the first aligned address after the predecessor, that is where the program goes. */
  lemma TightFit(apps: seq<App>, base: int, fixed: seq<Pinned>, j: nat)
    requires 0 < j < |apps|
    requires forall app | app in apps :: Granular(app.align)
    ensures var r := Place(apps, base, fixed);
      var s := Up(ClaimEnd(apps[j - 1], r[j - 1]), apps[j].align);
      (forall p | p in fixed ::
         (s + apps[j - 1].hint <= p.at && s + 0x10_0000 <= p.at) || ClaimEnd(p.app, p.at) <= s) ==> r[j] == s
  {
    hide Up, Granular, PlaceAfter, NextHole, Last, Place;
    var r := Place(apps, base, fixed);
    var prev, app := apps[j - 1], apps[j];
    var s := Up(ClaimEnd(prev, r[j - 1]), app.align);
    PlacedNext(apps, base, fixed, j);
    assert app in apps;
    SameStart(prev, r[j - 1], app);
    if forall p | p in fixed :: (s + prev.hint <= p.at && s + 0x10_0000 <= p.at) || ClaimEnd(p.app, p.at) <= s {
      forall p | p in fixed
        ensures !Collides(p, s, SizeHint(prev))
      {
        LastIsClaimed(p.app, p.at);
      }
      StaysIfClear(fixed, s, SizeHint(prev));
    }
  }

  lemma LastIsClaimed(app: App, at: int)
    ensures Last(app, at) <= ClaimEnd(app, at)
  {}

  /** The byte that a zone does not claim makes no difference to the next aligned address. */
  lemma SameStart(prev: App, at: int, app: App)
    requires Granular(app.align)
    ensures Up(Last(prev, at), app.align) == Up(ClaimEnd(prev, at), app.align)
  {
    hide Up;
    if prev.zoneEnd {
      var end := Up(at + prev.size, MB);
      MultipleTrans(end, MB, app.align);
      MultipleGap(Up(end - 1, app.align), end, app.align);
      MultipleGap(end, Up(end - 1, app.align), app.align);
    }
  }

  lemma {:induction false} StaysIfClear(fixed: seq<Pinned>, address: int, hint: int)
    requires Clear(fixed, address, hint)
    ensures NextHole(fixed, address, hint) == address
  {
    if fixed != [] {
      assert fixed[0] in fixed;
      StaysIfClear(fixed[1..], address, hint);
    }
  }

  lemma {:induction false} PlacedNext(apps: seq<App>, base: int, fixed: seq<Pinned>, j: nat)
    requires 0 < j < |apps|
    ensures var r := Place(apps, base, fixed);
      r[j] == NextHole(fixed, Up(Last(apps[j - 1], r[j - 1]), apps[j].align), SizeHint(apps[j - 1]))
  {
    PlacedNextAfter(apps[0], base, apps[1..], fixed, j - 1);
  }

  lemma {:induction false} PlacedNextAfter(prev: App, at: int, apps: seq<App>, fixed: seq<Pinned>, j: nat)
    requires j < |apps|
    ensures var r := PlaceAfter(prev, at, apps, fixed);
      var before, there := if j == 0 then prev else apps[j - 1], if j == 0 then at else r[j - 1];
      r[j] == NextHole(fixed, Up(Last(before, there), apps[j].align), SizeHint(before))
    decreases |apps|
  {
    hide Up, NextHole, Last, SizeHint;
    if j > 0 {
      PlacedNextAfter(apps[0], PlaceAfter(prev, at, apps, fixed)[0], apps[1..], fixed, j - 1);
    }
  }

  /** The byte of its region that a zone's last program does not claim is given away if and only if it is aligned
      for the next program. */
  lemma ZoneKeptIff(prev: App, at: int, app: App)
    requires prev.zoneEnd
    ensures var end := Up(at + prev.size, 0x10_0000);
      Up(Last(prev, at), app.align) >= end <==> app.align > 0 && !Multiple(end - 1, app.align)
  {
    hide Up, Multiple;
    var end := Up(at + prev.size, MB);
    assert Last(prev, at) == end - 1;
  }

  /** Fixed programs as a layout retains them: in order, granular and not at 0. */
  ghost predicate Possible(fixed: seq<Pinned>) {
    SortedByAddress(fixed) && forall p | p in fixed :: Granular(p.app.align) && p.at != 0
  }

  /** Whatever the fixed programs, the program placed after `prev` meets none of them. */
  ghost predicate AlwaysClear(prev: App, at: int, app: App) {
    forall fixed: seq<Pinned>, p: Pinned | Possible(fixed) && p in fixed ::
      Disjoint(PlaceAfter(prev, at, [app], fixed)[0], app.size, p.at, p.app.size)
  }

  /** The hint used is the predecessor's: a program is safe from every list of fixed ones if and only if it is
      no larger than 1M or than the size hint of the program before it. */
  lemma AlwaysClearIff(prev: App, at: nat, app: App)
    requires Granular(app.align)
    ensures AlwaysClear(prev, at, app) <==> app.size <= prev.hint || app.size <= 0x10_0000
  {
    hide Up, Granular, PlaceAfter;
    if app.size <= SizeHint(prev) {
      forall fixed: seq<Pinned>, p: Pinned | Possible(fixed) && p in fixed
        ensures Disjoint(PlaceAfter(prev, at, [app], fixed)[0], app.size, p.at, p.app.size)
      {
        PlacedAfter(prev, at, [app], fixed, 0);
        assert ApartFrom(p, PlaceAfter(prev, at, [app], fixed)[0], SizeHint(prev));
      }
    } else {
      var p := LandsOn(prev, at, app);
      assert p in [p];
    }
  }

  /** A program larger than the hint lands on one that is fixed just past the window tried. */
  lemma LandsOn(prev: App, at: nat, app: App) returns (p: Pinned)
    requires Granular(app.align) && app.size > SizeHint(prev)
    ensures Possible([p]) && !Disjoint(PlaceAfter(prev, at, [app], [p])[0], app.size, p.at, p.app.size)
  {
    hide Up;
    var start := Up(Last(prev, at), app.align);
    StartOnGrid(prev, at, app);
    LastNotBelow(prev, at);
    p := Pinned(start + SizeHint(prev), App(Fixed(start + SizeHint(prev)), app.align, 0, false, 1));
    assert NextHole([p], start, SizeHint(prev)) == start;
    assert [app][1..] == [];
    assert PlaceAfter(prev, at, [app], [p]) == [start];
  }

  lemma LastNotBelow(app: App, at: nat)
    ensures Last(app, at) >= -1
  {}

  /** For instance. */
  lemma PredecessorsHintIsUsed()
    ensures var apps := [App(ToAllocate, 2, 0, false, 1), App(ToAllocate, 2, 3 * MB, false, 3 * MB)];
      var fixed := [Pinned(2 * MB, App(Fixed(2 * MB), 2, 0, false, MB))];
      && Place(apps, 0, fixed) == [0, 2]
      && !Disjoint(2, apps[1].size, fixed[0].at, fixed[0].app.size)
  {
    var apps := [App(ToAllocate, 2, 0, false, 1), App(ToAllocate, 2, 3 * MB, false, 3 * MB)];
    var fixed := [Pinned(2 * MB, App(Fixed(2 * MB), 2, 0, false, MB))];
    assert apps[1..] == [apps[1]] && apps[1..][1..] == [];
    assert Up(1, 2) == 2;
    assert NextHole(fixed, 2, MB) == 2;
    assert PlaceAfter(apps[0], 0, apps[1..], fixed) == [2];
  }
}

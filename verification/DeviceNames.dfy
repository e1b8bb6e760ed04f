/**
 The names of virtual devices (cells/iguana/iguana_cell.py), by which clients
 and servers meet: a kind with a number put after it.
 */
module DeviceNames {
  import opened DeviceNumbering
  import opened Numerals

  /** `y` is `x` with more digits after it, the first of them not 0. */
  predicate Extends(x: Kind, y: Kind) {
    |x| < |y| && y[..|x|] == x && AllDigits(y[|x|..]) && y[|x|] != '0'
  }

  /** The number of `x` that is called like number 0 of `y`. */
  function Clash(x: Kind, y: Kind): nat
    requires Extends(x, y)
  {
    10 * Numeral(y[|x|..])
  }

  lemma ClashMeets(x: Kind, y: Kind)
    requires Extends(x, y)
    ensures x + Decimal(Clash(x, y)) == y + Decimal(0)
  {
    var w := y[|x|..];
    var t := w + "0";
    assert t[..|t| - 1] == w;
    assert Decimal(0) == "0";
    assert AllDigits(t);
    NumeralPrints(t);
    assert y == x + w;
    assert x + t == y + "0";
  }

  lemma MeetAt(x: Kind, y: Kind, m: nat, n: nat)
    requires |x| < |y| && x + Decimal(m) == y + Decimal(n)
    ensures Extends(x, y) && m >= Clash(x, y)
  {
    hide Decimal;
    DecimalReads(m);
    DecimalReads(n);
    var w := y[|x|..];
    assert (x + Decimal(m))[|x|..] == Decimal(m) && (y + Decimal(n))[|x|..] == w + Decimal(n);
    assert (x + Decimal(m))[..|x|] == x && (y + Decimal(n))[..|x|] == y[..|x|];
    assert Decimal(m) == w + Decimal(n);
    forall i | 0 <= i < |w|
      ensures IsDigit(w[i])
    {
      assert w[i] == Decimal(m)[i];
    }
    assert w[0] == Decimal(m)[0] == y[|x|];
    MoreDigits(w, Decimal(n));
  }

  /** Some names of two kinds coincide if and only if the longer kind is the shorter one followed by a number. */
  lemma NamesMeetIff(x: Kind, y: Kind)
    requires |x| < |y|
    ensures (exists m: nat, n: nat :: x + Decimal(m) == y + Decimal(n)) <==> Extends(x, y)
  {
    if m: nat, n: nat :| x + Decimal(m) == y + Decimal(n) { MeetAt(x, y, m, n); }
    if Extends(x, y) { ClashMeets(x, y); }
  }

  /** Names of kinds of the same length are the same only for the same number of the same kind. */
  lemma SameLength(x: Kind, y: Kind, m: nat, n: nat)
    requires |x| == |y| && x + Decimal(m) == y + Decimal(n)
    ensures x == y && m == n
  {
    hide Decimal;
    assert (x + Decimal(m))[..|x|] == x && (y + Decimal(n))[..|x|] == y;
    assert (x + Decimal(m))[|x|..] == Decimal(m) && (y + Decimal(n))[|x|..] == Decimal(n);
    DecimalReads(m);
    DecimalReads(n);
  }

  lemma SerialTen()
    ensures Device("p", "serial", 10).Name() == Device("q", "serial1", 0).Name() == "serial10"
  {
    assert Decimal(10) == Decimal(1) + [Digit(0)];
    assert Decimal(10) == "10" && Decimal(0) == "0";
    assert "serial" + "10" == "serial1" + "0";
  }

  // ---------------------------------------------------------------- the names a cell hands out

  ghost predicate Distinct(devices: seq<Device>) {
    forall i, j | 0 <= i < j < |devices| :: devices[i].Name() != devices[j].Name()
  }

  /** A kind that another one extends is not asked for so often that its numbers reach the other's names. */
  ghost predicate Apart(requests: seq<Request>) {
    forall i, j | 0 <= i < |requests| && 0 <= j < |requests| && Extends(requests[i].1, requests[j].1) ::
      Wanted(requests, requests[i].1) <= Clash(requests[i].1, requests[j].1)
  }

  ghost predicate AllZero(counter: Counts) {
    forall kind: Kind :: CountOf(counter, kind) == 0
  }

  /** Each request is given the number of requests for its kind before it. */
  lemma {:induction false} HandedAt(counter: Counts, requests: seq<Request>, j: nat)
    requires AllZero(counter) && j < |requests|
    ensures var h := HandedOut(counter, requests);
      |h| == |requests| && h[j] == Device(requests[j].0, requests[j].1, Wanted(requests[..j], requests[j].1))
    decreases |requests|
  {
    hide Counted, Wanted;
    var n := |requests| - 1;
    if n > 0 { HandedAt(counter, requests[..n], if j < n then j else 0); } else { NoneHanded(counter, requests); }
    if j < n {
      assert requests[..n][..j] == requests[..j];
    } else {
      NumbersFromZero(counter, requests[..n], requests[n].1);
    }
  }

  lemma NoneHanded(counter: Counts, requests: seq<Request>)
    requires |requests| == 1
    ensures HandedOut(counter, requests[..0]) == []
  {}

  lemma {:induction false} WantedGrows(requests: seq<Request>, i: nat, j: nat, kind: Kind)
    requires i <= j <= |requests|
    ensures Wanted(requests[..i], kind) <= Wanted(requests[..j], kind)
    ensures i < j && requests[i].1 == kind ==> Wanted(requests[..i], kind) < Wanted(requests[..j], kind)
    decreases j - i
  {
    if i < j {
      WantedGrows(requests, i, j - 1, kind);
      assert requests[..j][..j - 1] == requests[..j - 1];
    }
  }

  /** Every number below the count is given to some request. */
  lemma {:induction false} Reached(requests: seq<Request>, kind: Kind, v: nat) returns (j: nat)
    requires v < Wanted(requests, kind)
    ensures j < |requests| && requests[j].1 == kind && Wanted(requests[..j], kind) == v
  {
    var n := |requests| - 1;
    if v < Wanted(requests[..n], kind) {
      j := Reached(requests[..n], kind, v);
      assert requests[..n][..j] == requests[..j];
    } else {
      j := n;
    }
  }

  /** The names handed out by a cell are all different if and only if no kind reaches the names of one that extends it. */
  lemma NamesDistinctIff(calls: seq<Call>)
    ensures Distinct(Handed(calls)) <==> Apart(Requests(Clients(calls), Required(calls)))
  {
    hide Requests, Clients, Required, Zeroed, HandedOut, Distinct, Apart;
    var requests := Requests(Clients(calls), Required(calls));
    forall kind: Kind
      ensures CountOf(Zeroed(calls), kind) == 0
    {
      ZeroedIsZero(calls, kind);
    }
    if Apart(requests) {
      ApartIsDistinct(Zeroed(calls), requests);
    } else {
      NotApartMeets(Zeroed(calls), requests);
    }
  }

  lemma ApartIsDistinct(counter: Counts, requests: seq<Request>)
    requires AllZero(counter) && Apart(requests)
    ensures Distinct(HandedOut(counter, requests))
  {
    hide HandedOut, Wanted, Decimal;
    var h := HandedOut(counter, requests);
    if requests == [] {
      NothingHanded(counter);
    } else {
      HandedAt(counter, requests, 0);
      forall i, j | 0 <= i < j < |h|
        ensures h[i].Name() != h[j].Name()
      {
        HandedAt(counter, requests, i);
        HandedAt(counter, requests, j);
        Differ(requests, i, j);
      }
    }
  }

  /** Two requests of a run that is apart are given different names. */
  lemma Differ(requests: seq<Request>, i: nat, j: nat)
    requires Apart(requests) && i < j < |requests|
    ensures var x, y := requests[i].1, requests[j].1;
      x + Decimal(Wanted(requests[..i], x)) != y + Decimal(Wanted(requests[..j], y))
  {
    hide Wanted, Decimal, Extends;
    var x, y := requests[i].1, requests[j].1;
    var m, n := Wanted(requests[..i], x), Wanted(requests[..j], y);
    assert requests[..|requests|] == requests;
    WantedGrows(requests, i, |requests|, x);
    WantedGrows(requests, j, |requests|, y);
    WantedGrows(requests, i, j, x);
    if x + Decimal(m) == y + Decimal(n) {
      if |x| == |y| {
        SameLength(x, y, m, n);
      } else if |x| < |y| {
        MeetAt(x, y, m, n);
      } else {
        MeetAt(y, x, n, m);
      }
    }
  }

  lemma NotApartMeets(counter: Counts, requests: seq<Request>)
    requires AllZero(counter) && !Apart(requests)
    ensures !Distinct(HandedOut(counter, requests))
  {
    hide HandedOut, Wanted, Decimal, Extends;
    var i, j :| 0 <= i < |requests| && 0 <= j < |requests| && Extends(requests[i].1, requests[j].1) &&
      Wanted(requests, requests[i].1) > Clash(requests[i].1, requests[j].1);
    var x, y := requests[i].1, requests[j].1;
    var u := Reached(requests, x, Clash(x, y));
    AskedOnce(requests, j);
    var v := Reached(requests, y, 0);
    HandedAt(counter, requests, u);
    HandedAt(counter, requests, v);
    ClashMeets(x, y);
    Longer(x, y);
    var h := HandedOut(counter, requests);
    assert h[u].Name() == h[v].Name();
    assert u != v;
  }

  lemma Longer(x: Kind, y: Kind)
    requires Extends(x, y)
    ensures x != y
  {}

  lemma AskedOnce(requests: seq<Request>, j: nat)
    requires j < |requests|
    ensures Wanted(requests, requests[j].1) > 0
  {
    WantedGrows(requests, j, |requests|, requests[j].1);
    assert requests[..|requests|] == requests;
  }
}

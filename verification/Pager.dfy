/**
 The pager of the mutex benchmark (kbench/src/new_bench_mutex.c) and the segment
 lookup it asks (kbench/src/kbench.c). Pages are mapped one by one as threads
 fault; the page table must act as a cache of the segment table.
 */
module Pager {
  import opened Align

  /** Machine words are 32 bits wide. */
  const WORD: nat := 0x1_0000_0000
  const NO_SEGMENT: nat := WORD - 1

  type Word = x: nat | x < WORD

  /** The sum of two words. */
  function Wrap(x: nat): Word
    requires x < 2 * WORD
  {
    if x < WORD then x else x - WORD
  }

  datatype Segment = Segment(virt: Word, size: Word, offset: Word, cache: Word, rights: Word, id: Word)

  /** What a virtual address stands for: `id == NO_SEGMENT` is the failed lookup. */
  datatype Place = Nowhere | At(id: Word, offset: int, cache: Word, rights: Word)

  predicate Hit(s: Segment, a: Word) {
    s.virt <= a < Wrap(s.virt + s.size)
  }

  function PlaceIn(s: Segment, a: Word): Place
    requires s.virt <= a
  {
    At(s.id, Wrap(s.offset + (a - s.virt)), s.cache, s.rights)
  }

  function Lookup(segs: seq<Segment>, a: Word): Place {
    if segs == [] then Nowhere
    else if Hit(segs[0], a) then PlaceIn(segs[0], a)
    else Lookup(segs[1..], a)
  }

  /** The segment has the address; one that ends past the last word has none. */
  predicate Has(s: Segment, a: Word) {
    s.virt <= a < (s.virt + s.size) % 0x1_0000_0000
  }

  method GetSeg(segs: array<Segment>, a: Word) returns (id: Word, offset: Word, cache: Word, rwx: Word)
    ensures match Lookup(segs[..], a)
      case Nowhere => id == NO_SEGMENT
      case At(i, o, c, r) => id == i && offset == o && cache == c && rwx == r
    ensures
      || (id == NO_SEGMENT && forall i | 0 <= i < segs.Length :: !Has(segs[i], a))
      || exists k | 0 <= k < segs.Length ::
           && Has(segs[k], a) && (forall i | 0 <= i < k :: !Has(segs[i], a))
           && id == segs[k].id && cache == segs[k].cache && rwx == segs[k].rights
           && offset == (segs[k].offset + a - segs[k].virt) % 0x1_0000_0000
  {
    offset, cache, rwx := 0, 0, 0;
    assert segs[0..] == segs[..];
    for i := 0 to segs.Length
      invariant Lookup(segs[..], a) == Lookup(segs[i..], a)
      invariant forall j | 0 <= j < i :: !Has(segs[j], a)
    {
      var s := segs[i];
      assert segs[i..][1..] == segs[i + 1..];
      if s.virt <= a && a < Wrap(s.virt + s.size) {
        offset, cache, rwx := Wrap(s.offset + (a - s.virt)), s.cache, s.rights;
        assert Has(segs[i], a);
        return s.id, offset, cache, rwx;
      }
    }
    id := NO_SEGMENT;
  }

  // ---------------------------------------------------------------- the pager

  /** One map item per address space and page. */
  type Table = map<(nat, int), Place>

  datatype Event = Cancelled | Message(tag: Word, addr: Word, from: nat, space: nat)

  datatype Answer = Ignored | Mapped | Refused | Stopped

  /** The signed 12-bit code in bits 4 to 15 of a message label. */
  function FaultCode(tag: Word): int {
    var f := tag / 16 % 4096;
    if f < 2048 then f else f - 4096
  }

  const PAGE_FAULT: int := -2

  predicate Found(segs: seq<Segment>, a: Word) {
    Lookup(segs, a).At? && Lookup(segs, a).id != NO_SEGMENT
  }

  /** The page's map item: the offset rounded down like the address. */
  function Item(segs: seq<Segment>, a: Word, page: nat): Place {
    var p := Lookup(segs, a);
    if p.At? then p.(offset := Down(p.offset, page)) else p
  }

  function AnswerTo(e: Event, segs: seq<Segment>, clients: set<nat>): Answer {
    if e.Cancelled? then Ignored
    else if FaultCode(e.tag) != PAGE_FAULT then Stopped
    else if !Found(segs, e.addr) then Refused
    else if e.from !in clients then Stopped
    else Mapped
  }

  /** The code is that of a page fault when bits 4 to 15 of the label are all set but the lowest. */
  lemma FaultIff(tag: Word)
    ensures FaultCode(tag) == PAGE_FAULT <==> tag / 16 % 0x1000 == 0xffe
  {}

  /** A fault outside every segment is refused, whoever sent it; one inside is mapped for a client and stops the
      pager for anyone else, and so does any other message. Cancelled messages are ignored. */
  lemma AnswersAre(e: Event, segs: seq<Segment>, clients: set<nat>)
    requires forall i | 0 <= i < |segs| :: segs[i].id != NO_SEGMENT
    ensures AnswerTo(e, segs, clients) == Ignored <==> e.Cancelled?
    ensures e.Message? ==>
      var fault, inside := e.tag / 16 % 0x1000 == 0xffe, exists i | 0 <= i < |segs| :: Has(segs[i], e.addr);
      && (AnswerTo(e, segs, clients) == Mapped <==> fault && inside && e.from in clients)
      && (AnswerTo(e, segs, clients) == Refused <==> fault && !inside)
      && (AnswerTo(e, segs, clients) == Stopped <==> !fault || (inside && e.from !in clients))
  {
    if e.Message? { FoundIff(segs, e.addr); }
  }

  lemma {:induction false} FoundIff(segs: seq<Segment>, a: Word)
    requires forall i | 0 <= i < |segs| :: segs[i].id != NO_SEGMENT
    ensures Found(segs, a) <==> exists i | 0 <= i < |segs| :: Has(segs[i], a)
  {
    if segs != [] {
      FoundIff(segs[1..], a);
      assert Hit(segs[0], a) <==> Has(segs[0], a);
      if i :| 0 <= i < |segs| && Has(segs[i], a) { assert i == 0 || Has(segs[1..][i - 1], a); }
      if i :| 0 <= i < |segs[1..]| && Has(segs[1..][i], a) { assert Has(segs[i + 1], a); }
    }
  }

  class Pager {
    const segs: array<Segment>
    const page: nat
    const clients: set<nat>
    var table: Table
    var running: bool

    constructor (segs: array<Segment>, page: nat, clients: set<nat>)
      ensures this.segs == segs && this.page == page && this.clients == clients
      ensures table == map[] && running
    {
      this.segs, this.page, this.clients := segs, page, clients;
      table, running := map[], true;
    }

    /** One turn of the pager's loop. */
    method Serve(e: Event) returns (answer: Answer)
      requires running
      modifies this
      ensures answer == AnswerTo(e, segs[..], clients)
      ensures running == (answer != Stopped)
      ensures table == AfterEvent(old(table), e, segs[..], page, clients)
    {
      if e.Cancelled? {
        return Ignored;
      }
      if FaultCode(e.tag) == PAGE_FAULT {
        var id, offset, cache, rwx := GetSeg(segs, e.addr);
        if id == NO_SEGMENT {
          return Refused;
        }
        if e.from !in clients {
          running := false;
          return Stopped;
        }
        var base, start := Down(e.addr, page), Down(offset, page);
        table := table[(e.space, base) := At(id, start, cache, rwx)];
        return Mapped;
      } else {
        running := false;
        return Stopped;
      }
    }
  }

  function AfterEvent(t: Table, e: Event, segs: seq<Segment>, page: nat, clients: set<nat>): Table {
    if AnswerTo(e, segs, clients) == Mapped
    then t[(e.space, Down(e.addr, page)) := Item(segs, e.addr, page)]
    else t
  }

  /** The table after the events, up to the first that stops the pager. */
  function Run(t: Table, events: seq<Event>, segs: seq<Segment>, page: nat, clients: set<nat>): Table
    decreases |events|
  {
    if events == [] || AnswerTo(events[0], segs, clients) == Stopped then t
    else Run(AfterEvent(t, events[0], segs, page, clients), events[1..], segs, page, clients)
  }

  // ---------------------------------------------------------------- the table is a cache of the lookup

  /** What the hardware makes of an address. */
  function Translate(t: Table, space: nat, a: Word, page: nat): Place {
    var base := Down(a, page);
    if (space, base) !in t then Nowhere
    else
      var item := t[(space, base)];
      if item.At? then item.(offset := item.offset + (a - base)) else item
  }

  ghost predicate PageAligned(segs: seq<Segment>, page: nat) {
    && Multiple(WORD, page)
    && forall i | 0 <= i < |segs| ::
      Multiple(segs[i].virt, page) && Multiple(segs[i].size, page) && Multiple(segs[i].offset, page)
  }

  ghost predicate Agrees(t: Table, segs: seq<Segment>, page: nat) {
    forall space: nat, a: Word | (space, Down(a, page)) in t :: Translate(t, space, a, page) == Lookup(segs, a)
  }

  /** After any run of messages, every address of every mapped page is where the segment table says it is. */
  lemma TableIsACache(events: seq<Event>, segs: seq<Segment>, page: nat, clients: set<nat>, space: nat, a: Word)
    requires PageAligned(segs, page)
    ensures var t := Run(map[], events, segs, page, clients);
      (space, Down(a, page)) in t ==> Translate(t, space, a, page) == Lookup(segs, a)
  {
    RunAgrees(map[], events, segs, page, clients);
  }

  lemma {:induction false} RunAgrees(t: Table, events: seq<Event>, segs: seq<Segment>, page: nat, clients: set<nat>)
    requires PageAligned(segs, page) && Agrees(t, segs, page)
    ensures Agrees(Run(t, events, segs, page, clients), segs, page)
    decreases |events|
  {
    if events != [] && AnswerTo(events[0], segs, clients) != Stopped {
      EventAgrees(t, events[0], segs, page, clients);
      RunAgrees(AfterEvent(t, events[0], segs, page, clients), events[1..], segs, page, clients);
    }
  }

  lemma EventAgrees(t: Table, e: Event, segs: seq<Segment>, page: nat, clients: set<nat>)
    requires PageAligned(segs, page) && Agrees(t, segs, page)
    ensures Agrees(AfterEvent(t, e, segs, page, clients), segs, page)
  {
    hide Lookup, Down, PageAligned;
    var t' := AfterEvent(t, e, segs, page, clients);
    if AnswerTo(e, segs, clients) == Mapped {
      var base := Down(e.addr, page);
      forall space: nat, a: Word | (space, Down(a, page)) in t'
        ensures Translate(t', space, a, page) == Lookup(segs, a)
      {
        if space == e.space && Down(a, page) == base {
          SamePage(segs, e.addr, a, page);
        } else {
          assert (space, Down(a, page)) in t;
          assert Translate(t, space, a, page) == Lookup(segs, a);
        }
      }
    }
  }

  /** All addresses of a page are in the same segment, at offsets that follow the page's. */
  lemma {:induction false} SamePage(segs: seq<Segment>, a: Word, b: Word, page: nat)
    requires PageAligned(segs, page) && Down(a, page) == Down(b, page)
    ensures Lookup(segs, a).At? <==> Lookup(segs, b).At?
    ensures Lookup(segs, a).At? ==>
      var item := Item(segs, a, page);
      item.(offset := item.offset + (b - Down(b, page))) == Lookup(segs, b)
  {
    hide Rem, Down, Multiple;
    if segs != [] {
      var s := segs[0];
      WrapMultiple(s.virt, s.size, page);
      SameSide(s.virt, a, b, page);
      SameSide(Wrap(s.virt + s.size), a, b, page);
      if Hit(s, a) {
        OffsetFollows(s, a, page);
        OffsetFollows(s, b, page);
      } else {
        SamePage(segs[1..], a, b, page);
      }
    }
  }

  /** A page lies on one side of every page boundary. */
  lemma SameSide(v: int, a: int, b: int, page: nat)
    requires Multiple(v, page) && Down(a, page) == Down(b, page)
    ensures v <= a <==> v <= b
    ensures v <= a ==> v <= Down(a, page)
  {
    MultipleGap(Down(a, page), v, page);
  }

  lemma WrapMultiple(x: Word, y: Word, page: nat)
    requires Multiple(WORD, page) && Multiple(x, page) && Multiple(y, page)
    ensures Multiple(Wrap(x + y), page)
  {
    MultipleSum(x, y, page);
    MultipleSum(x + y, WORD, page);
  }

  lemma OffsetFollows(s: Segment, a: Word, page: nat)
    requires Multiple(WORD, page) && Multiple(s.virt, page) && Multiple(s.offset, page) && s.virt <= a
    ensures var base := Down(a, page);
      && s.virt <= base
      && var start := Wrap(s.offset + (base - s.virt));
         Wrap(s.offset + (a - s.virt)) == start + (a - base) && Down(start + (a - base), page) == start
  {
    hide Rem, Down;
    var base := Down(a, page);
    SameSide(s.virt, a, a, page);
    MultipleSum(base, s.virt, page);
    WrapMultiple(s.offset, base - s.virt, page);
    MultipleSum(s.offset, base - s.virt, page);
    var start := Wrap(s.offset + (base - s.virt));
    MultipleGap(s.offset + (base - s.virt), WORD, page);
    DownUnique(start, a - base, page);
  }

  lemma DownUnique(x: int, d: nat, page: nat)
    requires Multiple(x, page) && d < page
    ensures Down(x + d, page) == x
  {
    MultipleGap(x, Down(x + d, page), page);
    MultipleGap(Down(x + d, page), x, page);
  }

  /** The pages mapped are those of the faults that were answered, and no others. */
  lemma {:induction false} MappedIffAnswered(
    t: Table, events: seq<Event>, segs: seq<Segment>, page: nat, clients: set<nat>, space: nat, base: int)
    requires forall i | 0 <= i < |events| :: AnswerTo(events[i], segs, clients) != Stopped
    ensures (space, base) in Run(t, events, segs, page, clients) <==>
      (space, base) in t || exists i | 0 <= i < |events| :: Brings(events[i], segs, page, clients, space, base)
    decreases |events|
  {
    hide Lookup, Down;
    if events != [] {
      var rest := events[1..];
      assert (space, base) in AfterEvent(t, events[0], segs, page, clients) <==>
        (space, base) in t || Brings(events[0], segs, page, clients, space, base);
      MappedIffAnswered(AfterEvent(t, events[0], segs, page, clients), rest, segs, page, clients, space, base);
      if i :| 0 <= i < |rest| && Brings(rest[i], segs, page, clients, space, base) {
        assert events[i + 1] == rest[i];
      }
      if i :| 0 <= i < |events| && Brings(events[i], segs, page, clients, space, base) {
        assert i == 0 || events[i] == rest[i - 1];
      }
    }
  }

  predicate Brings(e: Event, segs: seq<Segment>, page: nat, clients: set<nat>, space: nat, base: int) {
    AnswerTo(e, segs, clients) == Mapped && e.Message? && e.space == space && Down(e.addr, page) == base
  }

  /** For one fault without the alignment: the faulting address gets its own place exactly when the
      segment's offset and virtual address are equally far into a page. */
  lemma RightForTheFaultIff(t: Table, e: Event, segs: seq<Segment>, page: nat, clients: set<nat>, s: Segment)
    requires Multiple(WORD, page) && AnswerTo(e, segs, clients) == Mapped
    requires Hit(s, e.addr) && Lookup(segs, e.addr) == PlaceIn(s, e.addr)
    ensures Translate(AfterEvent(t, e, segs, page, clients), e.space, e.addr, page) == Lookup(segs, e.addr)
      <==> Multiple(s.offset - s.virt, page)
  {
    hide Lookup, Rem;
    var a := e.addr;
    var o := Wrap(s.offset + (a - s.virt));
    SameRemainder(o, a, page);
    var d: int := o - a;
    if d != s.offset - s.virt {
      assert d == s.offset - s.virt - WORD;
      if Multiple(d, page) {
        MultipleSum(d, WORD, page);
      }
      if Multiple(s.offset - s.virt, page) {
        MultipleSum(s.offset - s.virt, WORD, page);
      }
    }
  }

  /** Every address of the page looks up to the segment that the faulting address is in, at the offset that follows from it. */
  ghost predicate OneSegment(segs: seq<Segment>, s: Segment, a: Word, page: nat)
    requires s.virt <= a
  {
    forall b: Word | Down(b, page) == Down(a, page) :: Lookup(segs, b) == PlaceIn(s, a).(offset := PlaceIn(s, a).offset + (b - a))
  }

  /** For one fault without the alignment, and its whole page: every address gets its own place if and only if the
      segment's offset and virtual address are equally far into a page and the page lies in that segment. */
  lemma RightForThePageIff(t: Table, e: Event, segs: seq<Segment>, page: nat, clients: set<nat>, s: Segment)
    requires Multiple(WORD, page) && AnswerTo(e, segs, clients) == Mapped
    requires Hit(s, e.addr) && Lookup(segs, e.addr) == PlaceIn(s, e.addr)
    ensures (forall b: Word | Down(b, page) == Down(e.addr, page) ::
        Translate(AfterEvent(t, e, segs, page, clients), e.space, b, page) == Lookup(segs, b))
      <==> Multiple(s.offset - s.virt, page) && OneSegment(segs, s, e.addr, page)
  {
    hide Lookup, Rem, Down, Multiple;
    RightForTheFaultIff(t, e, segs, page, clients, s);
    var t' := AfterEvent(t, e, segs, page, clients);
    var a, p := e.addr, PlaceIn(s, e.addr);
    var base := Down(a, page);
    forall b: Word | Down(b, page) == base
      ensures Translate(t', e.space, b, page) == p.(offset := Down(p.offset, page) + (b - base))
    {}
    if Multiple(s.offset - s.virt, page) {
      assert Translate(t', e.space, a, page) == p;
      assert Down(p.offset, page) + (a - base) == p.offset;
    }
    if forall b: Word | Down(b, page) == base :: Translate(t', e.space, b, page) == Lookup(segs, b) {
      assert Translate(t', e.space, a, page) == Lookup(segs, a);
    }
  }

  /** For instance: a segment whose offset is one byte into a page. */
  lemma OneByteOff()
    ensures var s := Segment(0, 8, 1, 0, 0, 7);
      var e := Message(0xffe0, 2, 5, 9);
      && AnswerTo(e, [s], {5}) == Mapped && Lookup([s], 2) == At(7, 3, 0, 0)
      && Translate(AfterEvent(map[], e, [s], 4, {5}), 9, 2, 4) == At(7, 2, 0, 0)
  {
    var s := Segment(0, 8, 1, 0, 0, 7);
    assert Hit(s, 2) && Lookup([s], 2) == PlaceIn(s, 2);
    assert Down(2, 4) == 0 && Down(3, 4) == 0;
  }
}

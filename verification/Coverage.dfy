/**
 The index of the coverage tool (tools/coverage.py): recorded addresses are kept
 in a tree of packages, files and symbols, looked up by address when a trace is
 read, and the share of hit addresses is averaged up the tree.
 */
module Coverage {
  import opened Optional

  /** An `Address` object; the others refer to it by its position in order of creation. */
  datatype Address = Address(address: int, file: string, symbol: string, hit: bool)

  datatype Symbol = Symbol(name: string, addrs: seq<nat>)

  datatype File = File(package: string, symbols: seq<Symbol>)

  /** All objects and the three look-up dictionaries. */
  datatype State = State(
    objs: seq<Address>, lookup: map<int, nat>, files: map<string, File>, packages: map<string, seq<string>>)

  const EMPTY: State := State([], map[], map[], map[])

  // ---------------------------------------------------------------- recording an address

  function Find(symbols: seq<Symbol>, name: string): (i: nat)
    ensures i <= |symbols| && (i < |symbols| ==> symbols[i].name == name)
    ensures forall j | 0 <= j < i :: symbols[j].name != name
  {
    if symbols == [] || symbols[0].name == name then 0 else 1 + Find(symbols[1..], name)
  }

  function WithAddress(symbols: seq<Symbol>, name: string, id: nat): seq<Symbol> {
    var i := Find(symbols, name);
    if i < |symbols| then symbols[i := Symbol(name, symbols[i].addrs + [id])]
    else symbols + [Symbol(name, [id])]
  }

  /** The constructors of `Address`, `Symbol`, `File` and `Package`; `None` when the file is in another package. */
  function Record(st: State, address: int, symbol: string, file: string, package: string): Option<State> {
    var id := |st.objs|;
    var objs, lookup := st.objs + [Address(address, file, symbol, false)], st.lookup[address := id];
    if file !in st.files then
      var listed := if package in st.packages then st.packages[package] else [];
      Some(State(objs, lookup, st.files[file := File(package, [Symbol(symbol, [id])])],
        st.packages[package := listed + [file]]))
    else if st.files[file].package != package then None
    else Some(State(objs, lookup, st.files[file := File(package, WithAddress(st.files[file].symbols, symbol, id))],
      st.packages))
  }

  // ---------------------------------------------------------------- the tree is the flat list, grouped

  /** The objects of one symbol, in order of creation. */
  function IdsOf(objs: seq<Address>, file: string, symbol: string): seq<nat> {
    if objs == [] then []
    else
      var n := |objs| - 1;
      IdsOf(objs[..n], file, symbol) + if objs[n].file == file && objs[n].symbol == symbol then [n] else []
  }

  ghost predicate FileSound(f: File, file: string, objs: seq<Address>) {
    && (forall i | 0 <= i < |f.symbols| ::
      f.symbols[i].addrs == IdsOf(objs, file, f.symbols[i].name) && f.symbols[i].addrs != [])
    && (forall i, j | 0 <= i < j < |f.symbols| :: f.symbols[i].name != f.symbols[j].name)
  }

  ghost predicate HasSymbol(files: map<string, File>, file: string, symbol: string) {
    file in files && Find(files[file].symbols, symbol) < |files[file].symbols|
  }

  ghost predicate Once(s: seq<string>) {
    forall i, j | 0 <= i < j < |s| :: s[i] != s[j]
  }

  /** Each symbol lists exactly the objects that name it. */
  ghost predicate FilesSound(st: State) {
    forall f | f in st.files :: FileSound(st.files[f], f, st.objs)
  }

  /** Each object's symbol is in its file. */
  ghost predicate Placed(st: State) {
    forall id | 0 <= id < |st.objs| :: HasSymbol(st.files, st.objs[id].file, st.objs[id].symbol)
  }

  /** Each file is listed once, by its own package. */
  ghost predicate Packaged(st: State) {
    && (forall f | f in st.files :: st.files[f].package in st.packages && f in st.packages[st.files[f].package])
    && (forall p, f | p in st.packages && f in st.packages[p] :: f in st.files && st.files[f].package == p)
    && (forall p | p in st.packages :: Once(st.packages[p]))
  }

  /** The look-up finds for every address that has an object one that has it. */
  ghost predicate Looked(st: State) {
    && (forall a | a in st.lookup :: st.lookup[a] < |st.objs| && st.objs[st.lookup[a]].address == a)
    && (forall id | 0 <= id < |st.objs| :: st.objs[id].address in st.lookup)
  }

  ghost predicate Sound(st: State) {
    FilesSound(st) && Placed(st) && Packaged(st) && Looked(st)
  }

  lemma {:induction false} IdsMember(objs: seq<Address>, file: string, symbol: string, id: nat)
    ensures id in IdsOf(objs, file, symbol) <==> id < |objs| && objs[id].file == file && objs[id].symbol == symbol
  {
    if objs != [] {
      var n := |objs| - 1;
      IdsMember(objs[..n], file, symbol, id);
    }
  }

  lemma IdsGrow(objs: seq<Address>, x: Address, file: string, symbol: string)
    ensures IdsOf(objs + [x], file, symbol) ==
      IdsOf(objs, file, symbol) + if x.file == file && x.symbol == symbol then [|objs|] else []
  {
    assert (objs + [x])[..|objs|] == objs;
  }

  lemma RecordKeepsSound(st: State, address: int, symbol: string, file: string, package: string)
    requires Sound(st)
    ensures var r := Record(st, address, symbol, file, package); r.Some? ==> Sound(r.value)
  {
    hide Record, FilesSound, Placed, Packaged, Looked;
    if Record(st, address, symbol, file, package).Some? {
      RecordKeepsFiles(st, address, symbol, file, package);
      RecordKeepsPlaced(st, address, symbol, file, package);
      RecordKeepsPackaged(st, address, symbol, file, package);
      RecordKeepsLooked(st, address, symbol, file, package);
    }
  }

  lemma RecordKeepsFiles(st: State, address: int, symbol: string, file: string, package: string)
    requires Sound(st) && Record(st, address, symbol, file, package).Some?
    ensures FilesSound(Record(st, address, symbol, file, package).value)
  {
    hide FileSound, Placed, Packaged, Looked, WithAddress;
    var t := Record(st, address, symbol, file, package).value;
    forall f | f in t.files
      ensures FileSound(t.files[f], f, t.objs)
    {
      if f != file {
        OtherFileSound(st.files[f], f, st.objs, Address(address, file, symbol, false));
      } else if file in st.files {
        SameFileSound(st, address, symbol, file);
      } else {
        NewFileSound(st, address, symbol, file, package);
      }
    }
  }

  lemma RecordKeepsPlaced(st: State, address: int, symbol: string, file: string, package: string)
    requires Sound(st) && Record(st, address, symbol, file, package).Some?
    ensures Placed(Record(st, address, symbol, file, package).value)
  {
    hide HasSymbol, FilesSound, Packaged, Looked, WithAddress;
    var t := Record(st, address, symbol, file, package).value;
    forall id | 0 <= id < |t.objs|
      ensures HasSymbol(t.files, t.objs[id].file, t.objs[id].symbol)
    {
      if id < |st.objs| { assert t.objs[id] == st.objs[id]; }
      SymbolFound(st, address, symbol, file, package, t.objs[id].file, t.objs[id].symbol);
    }
  }

  lemma RecordKeepsPackaged(st: State, address: int, symbol: string, file: string, package: string)
    requires Packaged(st) && Record(st, address, symbol, file, package).Some?
    ensures Packaged(Record(st, address, symbol, file, package).value)
  {
    hide WithAddress, Once;
    var t := Record(st, address, symbol, file, package).value;
    if file in st.files {
      assert t.packages == st.packages;
      forall f | f in t.files
        ensures t.files[f].package in t.packages && f in t.packages[t.files[f].package]
      {
        assert f in st.files && t.files[f].package == st.files[f].package;
      }
    } else {
      NewFileListed(st, t, file, package);
    }
  }

  /** `t` is `st` with a new file, listed last in its package. */
  ghost predicate WithFile(st: State, t: State, file: string, package: string) {
    && file !in st.files && file in t.files && t.files[file].package == package
    && t.files.Keys == st.files.Keys + {file} && (forall f | f in st.files :: t.files[f] == st.files[f])
    && t.packages == st.packages[package := (if package in st.packages then st.packages[package] else []) + [file]]
  }

  lemma NewFileListed(st: State, t: State, file: string, package: string)
    requires Packaged(st) && WithFile(st, t, file, package)
    ensures Packaged(t)
  {
    hide WithFile, Once;
    forall f | f in t.files
      ensures t.files[f].package in t.packages && f in t.packages[t.files[f].package]
    {
      StillListed(st, t, file, package, f);
    }
    forall p, f | p in t.packages && f in t.packages[p]
      ensures f in t.files && t.files[f].package == p
    {
      StillOwn(st, t, file, package, p, f);
    }
    forall p | p in t.packages
      ensures Once(t.packages[p])
    {
      StillOnce(st, t, file, package, p);
    }
  }

  lemma StillListed(st: State, t: State, file: string, package: string, f: string)
    requires Packaged(st) && WithFile(st, t, file, package) && f in t.files
    ensures t.files[f].package in t.packages && f in t.packages[t.files[f].package]
  {
    if f != file { assert f in st.files && st.files[f].package in st.packages; }
  }

  lemma StillOwn(st: State, t: State, file: string, package: string, p: string, f: string)
    requires Packaged(st) && WithFile(st, t, file, package) && p in t.packages && f in t.packages[p]
    ensures f in t.files && t.files[f].package == p
  {
    if p in st.packages && f in st.packages[p] { assert f in st.files; }
  }

  lemma StillOnce(st: State, t: State, file: string, package: string, p: string)
    requires Packaged(st) && WithFile(st, t, file, package) && p in t.packages
    ensures Once(t.packages[p])
  {
    if p == package {
      var listed := if package in st.packages then st.packages[package] else [];
      assert file !in listed;
      assert Once(listed);
      assert t.packages[p] == listed + [file];
    }
  }

  lemma RecordKeepsLooked(st: State, address: int, symbol: string, file: string, package: string)
    requires Looked(st) && Record(st, address, symbol, file, package).Some?
    ensures Looked(Record(st, address, symbol, file, package).value)
  {
    hide WithAddress;
  }

  lemma OtherFileSound(f: File, file: string, objs: seq<Address>, x: Address)
    requires FileSound(f, file, objs) && x.file != file
    ensures FileSound(f, file, objs + [x])
  {
    forall i | 0 <= i < |f.symbols|
      ensures f.symbols[i].addrs == IdsOf(objs + [x], file, f.symbols[i].name)
    {
      IdsGrow(objs, x, file, f.symbols[i].name);
    }
  }

  lemma NewFileSound(st: State, address: int, symbol: string, file: string, package: string)
    requires Sound(st) && file !in st.files
    ensures FileSound(File(package, [Symbol(symbol, [|st.objs|])]), file, st.objs + [Address(address, file, symbol, false)])
  {
    NoneYet(st, file, symbol);
    IdsGrow(st.objs, Address(address, file, symbol, false), file, symbol);
  }

  /** A symbol that is not in the tree has no objects. */
  lemma NoneYet(st: State, file: string, symbol: string)
    requires Sound(st) && !HasSymbol(st.files, file, symbol)
    ensures IdsOf(st.objs, file, symbol) == []
  {
    hide HasSymbol, IdsOf;
    var ids := IdsOf(st.objs, file, symbol);
    if ids != [] {
      var id := ids[0];
      IdsMember(st.objs, file, symbol, id);
      assert false;
    }
  }

  lemma SameFileSound(st: State, address: int, symbol: string, file: string)
    requires Sound(st) && file in st.files
    ensures var f := st.files[file];
      FileSound(File(f.package, WithAddress(f.symbols, symbol, |st.objs|)), file,
        st.objs + [Address(address, file, symbol, false)])
  {
    hide IdsOf, Find;
    var f, x := st.files[file], Address(address, file, symbol, false);
    var syms := WithAddress(f.symbols, symbol, |st.objs|);
    var k := Find(f.symbols, symbol);
    if k == |f.symbols| { NoneYet(st, file, symbol); }
    assert FileSound(f, file, st.objs);
    forall i | 0 <= i < |syms|
      ensures syms[i].addrs == IdsOf(st.objs + [x], file, syms[i].name) && syms[i].addrs != []
    {
      IdsGrow(st.objs, x, file, syms[i].name);
      assert i < |f.symbols| ==> f.symbols[i].addrs == IdsOf(st.objs, file, f.symbols[i].name);
    }
  }

  lemma SymbolFound(
    st: State, address: int, symbol: string, file: string, package: string, file': string, symbol': string)
    requires Record(st, address, symbol, file, package).Some?
    requires HasSymbol(st.files, file', symbol') || (file' == file && symbol' == symbol)
    ensures HasSymbol(Record(st, address, symbol, file, package).value.files, file', symbol')
  {
    var t := Record(st, address, symbol, file, package).value;
    if file' == file {
      var syms := t.files[file].symbols;
      if file in st.files && symbol' != symbol {
        var k := Find(st.files[file].symbols, symbol');
        assert syms[k].name == symbol';
      } else if file in st.files {
        var k := Find(st.files[file].symbols, symbol);
        assert syms[k].name == symbol;
      }
    }
  }

  // ---------------------------------------------------------------- recording a range

  /** The words of a symbol and the markers of its literal pools, start and end in turn. */
  datatype Range = Range(start: int, end: int, markers: seq<int>, symbol: string, file: string, package: string)

  /** The markers are paired, or the last pool runs to the end of the symbol. A single marker is not looked at. */
  predicate Complete(r: Range) {
    |r.markers| <= 1 || |r.markers| % 2 == 0 || r.markers[|r.markers| - 1] == r.end
  }

  predicate InSteps(a: int, from: int, to: int) {
    from <= a < to && (a - from) % 4 == 0
  }

  /** The word is in a literal pool. */
  ghost predicate Skipped(r: Range, a: int) {
    exists i, j | 0 <= i && j == i + 1 < |r.markers| && i % 2 == 0 :: InSteps(a, r.markers[i], r.markers[j])
  }

  ghost predicate Records(r: Range, a: int) {
    InSteps(a, r.start, r.end) && !Skipped(r, a)
  }

  /** What `add_address_range` records from `a` on. */
  ghost function RecordFrom(st: State, r: Range, a: int): Option<State>
    decreases r.end - a
  {
    if a >= r.end then Some(st)
    else
      var next := if Skipped(r, a) then Some(st) else Record(st, a, r.symbol, r.file, r.package);
      if next.Some? then RecordFrom(next.value, r, a + 4) else None
  }

  ghost function AddRange(st: State, r: Range): Option<State> {
    if !Complete(r) || r.start in st.lookup then None else RecordFrom(st, r, r.start)
  }

  /** Python's `range(from, to, 4)`. */
  method Steps(from: int, to: int) returns (s: seq<int>)
    ensures forall a :: a in s <==> InSteps(a, from, to)
  {
    s := [];
    var a := from;
    while a < to
      invariant from <= a && (a - from) % 4 == 0
      invariant forall x :: x in s <==> InSteps(x, from, to) && x < a
    {
      s := s + [a];
      a := a + 4;
    }
  }

  class Index {
    var st: State

    constructor ()
      ensures st == EMPTY
    {
      st := EMPTY;
    }

    method AddAddress(address: int, symbol: string, file: string, package: string) returns (ok: bool)
      modifies this
      ensures ok == Record(old(st), address, symbol, file, package).Some?
      ensures st == if ok then Record(old(st), address, symbol, file, package).value else old(st)
    {
      var id := |st.objs|;
      var objs, lookup := st.objs + [Address(address, file, symbol, false)], st.lookup[address := id];
      if file in st.files {
        var f := st.files[file];
        if f.package != package {
          return false;
        }
        var i := 0;
        assert f.symbols[0..] == f.symbols;
        while i < |f.symbols| && f.symbols[i].name != symbol
          invariant 0 <= i <= |f.symbols| && Find(f.symbols, symbol) == i + Find(f.symbols[i..], symbol)
        {
          assert f.symbols[i..][1..] == f.symbols[i + 1..];
          i := i + 1;
        }
        var symbols := if i < |f.symbols| then f.symbols[i := Symbol(symbol, f.symbols[i].addrs + [id])]
          else f.symbols + [Symbol(symbol, [id])];
        st := State(objs, lookup, st.files[file := File(package, symbols)], st.packages);
      } else {
        var listed := if package in st.packages then st.packages[package] else [];
        st := State(objs, lookup, st.files[file := File(package, [Symbol(symbol, [id])])],
          st.packages[package := listed + [file]]);
      }
      ok := true;
    }

    /** The words to skip, or nothing if the markers are incomplete. */
    static method PoolWords(r: Range) returns (ok: bool, skip: seq<int>)
      ensures ok == Complete(r)
      ensures ok ==> forall a | InSteps(a, r.start, r.end) :: a in skip <==> Skipped(r, a)
    {
      skip := [];
      if |r.markers| > 1 {
        var n := |r.markers|;
        if n % 2 != 0 {
          if r.markers[n - 1] != r.end { return false, []; }
          n := n - 1;
        }
        var i := 0;
        while i < n
          invariant 0 <= i <= n && i % 2 == 0
          invariant forall a :: a in skip <==> SkippedBy(r, a, i)
        {
          var pool := Steps(r.markers[i], r.markers[i + 1]);
          ghost var before := skip;
          skip := skip + pool;
          forall a
            ensures a in skip <==> SkippedBy(r, a, i + 2)
          {
            SkippedByNext(r, a, i);
          }
          i := i + 2;
        }
        forall a
          ensures a in skip <==> Skipped(r, a)
        {
          SkippedByAll(r, a, n);
        }
      }
      ok := true;
    }

    method AddAddressRange(r: Range) returns (ok: bool)
      modifies this
      ensures ok == AddRange(old(st), r).Some?
      ensures ok ==> st == AddRange(old(st), r).value
    {
      hide Record, Skipped;
      var complete, skip := PoolWords(r);
      if !complete { return false; }
      if r.start in st.lookup { return false; }
      var a := r.start;
      while a < r.end
        invariant r.start <= a && (a - r.start) % 4 == 0
        invariant RecordFrom(st, r, a) == RecordFrom(old(st), r, r.start)
        decreases r.end - a
      {
        if a !in skip {
          var added := AddAddress(a, r.symbol, r.file, r.package);
          if !added { return false; }
        }
        a := a + 4;
      }
      ok := true;
    }
  }

  /** The word is in one of the pools that end before marker `n`. */
  ghost predicate SkippedBy(r: Range, a: int, n: nat)
    requires n <= |r.markers|
  {
    exists i, j | 0 <= i && j == i + 1 < n && i % 2 == 0 :: InSteps(a, r.markers[i], r.markers[j])
  }

  lemma SkippedByNext(r: Range, a: int, i: nat)
    requires i % 2 == 0 && i + 2 <= |r.markers|
    ensures SkippedBy(r, a, i + 2) <==> SkippedBy(r, a, i) || InSteps(a, r.markers[i], r.markers[i + 1])
  {}

  lemma SkippedByAll(r: Range, a: int, n: nat)
    requires n == |r.markers| - |r.markers| % 2
    ensures SkippedBy(r, a, n) <==> Skipped(r, a)
  {}

  /** A range is refused exactly when it has three markers or more, an odd number, of which the last is not its
      end; or its first word is recorded; or it has a word to record and its file is in another package. */
  lemma RangeFailsIff(st: State, r: Range)
    ensures AddRange(st, r).None? <==>
      || (|r.markers| >= 3 && |r.markers| % 2 == 1 && r.markers[|r.markers| - 1] != r.end)
      || r.start in st.lookup
      || (Elsewhere(st, r) && exists x :: Records(r, x))
  {
    hide Skipped, RecordFrom;
    RestFailsIff(st, r, r.start);
    if x :| Records(r, x) { assert r.start <= x; }
  }

  /** The range's file is in another package. */
  predicate Elsewhere(st: State, r: Range) {
    r.file in st.files && st.files[r.file].package != r.package
  }

  lemma {:induction false} RestFailsIff(st: State, r: Range, a: int)
    requires r.start <= a && (a - r.start) % 4 == 0
    ensures RecordFrom(st, r, a).None? <==> Elsewhere(st, r) && exists x :: Records(r, x) && a <= x
    decreases r.end - a
  {
    hide Skipped, WithAddress;
    if a < r.end {
      var next := if Skipped(r, a) then Some(st) else Record(st, a, r.symbol, r.file, r.package);
      assert !Skipped(r, a) ==> Records(r, a);
      if next.Some? {
        RestFailsIff(next.value, r, a + 4);
        if Elsewhere(st, r) {
          if x :| Records(r, x) && a <= x { assert x != a && a + 4 <= x; }
        }
      }
    }
  }

  // ---------------------------------------------------------------- a whole scan

  ghost function Run(ranges: seq<Range>): Option<State> {
    if ranges == [] then Some(EMPTY)
    else
      var n := |ranges| - 1;
      var st := Run(ranges[..n]);
      if st.Some? then AddRange(st.value, ranges[n]) else None
  }

  ghost predicate Recorded(ranges: seq<Range>, a: int) {
    exists k | 0 <= k < |ranges| :: Records(ranges[k], a)
  }

  /** No word is recorded twice, and no range starts at a word recorded before it. */
  ghost predicate NoClash(ranges: seq<Range>) {
    forall k, l, a: int | 0 <= k < l < |ranges| && Records(ranges[k], a) ::
      a != ranges[l].start && !Records(ranges[l], a)
  }

  ghost predicate OnePackage(ranges: seq<Range>) {
    forall k, l | 0 <= k < |ranges| && 0 <= l < |ranges| && ranges[k].file == ranges[l].file ::
      ranges[k].package == ranges[l].package
  }

  ghost predicate AllComplete(ranges: seq<Range>) {
    forall k | 0 <= k < |ranges| :: Complete(ranges[k])
  }

  /** Each object is the one its address is looked up as. */
  ghost predicate OneEach(st: State) {
    forall id | 0 <= id < |st.objs| :: st.objs[id].address in st.lookup && st.lookup[st.objs[id].address] == id
  }

  ghost predicate Unhit(st: State) {
    forall id | 0 <= id < |st.objs| :: !st.objs[id].hit
  }

  /** Each file has the package of the ranges that name it. */
  ghost predicate Agrees(st: State, ranges: seq<Range>) {
    forall f | f in st.files :: exists k | 0 <= k < |ranges| :: ranges[k].file == f && ranges[k].package == st.files[f].package
  }

  /** Each object carries the symbol and the file of a range that records its word. */
  ghost predicate Carries(st: State, ranges: seq<Range>) {
    forall id | 0 <= id < |st.objs| :: From(st.objs[id], ranges)
  }

  ghost predicate From(x: Address, ranges: seq<Range>) {
    exists k | 0 <= k < |ranges| ::
      Records(ranges[k], x.address) && x.symbol == ranges[k].symbol && x.file == ranges[k].file
  }

  /** A scan of complete ranges that do not clash goes through, and records exactly the words outside the
      literal pools, each once, each under the symbol, file and package of its own range. */
  lemma {:induction false} ScanRecords(ranges: seq<Range>)
    requires AllComplete(ranges) && NoClash(ranges) && OnePackage(ranges)
    ensures var r := Run(ranges);
      && r.Some? && Sound(r.value) && OneEach(r.value) && Unhit(r.value)
      && Agrees(r.value, ranges) && Carries(r.value, ranges)
      && forall a :: a in r.value.lookup <==> Recorded(ranges, a)
  {
    hide Records, Complete, Sound, OneEach, Unhit, Agrees, Carries, Recorded, NoClash, OnePackage, AddRange;
    if ranges == [] {
      EmptyScan();
    } else {
      var n := |ranges| - 1;
      ShorterScan(ranges);
      ScanRecords(ranges[..n]);
      var st := Run(ranges[..n]).value;
      NextRange(st, ranges);
      RangeRecords(st, ranges[n], ranges);
      forall a
        ensures Recorded(ranges, a) <==> Recorded(ranges[..n], a) || Records(ranges[n], a)
      {
        RecordedNext(ranges, a);
      }
    }
  }

  lemma EmptyScan()
    ensures Sound(EMPTY) && OneEach(EMPTY) && Unhit(EMPTY) && Agrees(EMPTY, []) && Carries(EMPTY, [])
    ensures forall a :: !Recorded([], a)
  {}

  lemma ShorterScan(ranges: seq<Range>)
    requires ranges != [] && AllComplete(ranges) && NoClash(ranges) && OnePackage(ranges)
    ensures var rest := ranges[..|ranges| - 1]; AllComplete(rest) && NoClash(rest) && OnePackage(rest)
  {
    hide Records;
  }

  lemma RecordedNext(ranges: seq<Range>, a: int)
    requires ranges != []
    ensures var n := |ranges| - 1; Recorded(ranges, a) <==> Recorded(ranges[..n], a) || Records(ranges[n], a)
  {
    hide Records;
    var n := |ranges| - 1;
    if k :| 0 <= k < |ranges| && Records(ranges[k], a) { assert k == n || Records(ranges[..n][k], a); }
    if k :| 0 <= k < n && Records(ranges[..n][k], a) { assert Records(ranges[k], a); }
  }

  /** The last range of a scan meets nothing that is recorded. */
  lemma NextRange(st: State, ranges: seq<Range>)
    requires ranges != [] && NoClash(ranges) && OnePackage(ranges)
    requires Agrees(st, ranges[..|ranges| - 1]) && Carries(st, ranges[..|ranges| - 1])
    requires forall a :: a in st.lookup <==> Recorded(ranges[..|ranges| - 1], a)
    ensures var n := |ranges| - 1;
      && ranges[n].start !in st.lookup && (forall a | Records(ranges[n], a) :: a !in st.lookup)
      && Agrees(st, ranges) && Carries(st, ranges)
      && (ranges[n].file in st.files ==> st.files[ranges[n].file].package == ranges[n].package)
  {
    hide Records;
    var n := |ranges| - 1;
    forall a | a in st.lookup
      ensures a != ranges[n].start && !Records(ranges[n], a)
    {
      var k :| 0 <= k < n && Records(ranges[..n][k], a);
      assert Records(ranges[k], a);
    }
    forall f | f in st.files
      ensures exists k | 0 <= k < |ranges| :: ranges[k].file == f && ranges[k].package == st.files[f].package
    {
      var k :| 0 <= k < n && ranges[..n][k].file == f && ranges[..n][k].package == st.files[f].package;
      assert ranges[k].file == f && ranges[k].package == st.files[f].package;
    }
    StillCarries(st, ranges);
  }

  lemma StillCarries(st: State, ranges: seq<Range>)
    requires ranges != [] && Carries(st, ranges[..|ranges| - 1])
    ensures Carries(st, ranges)
  {
    hide Records;
    forall id | 0 <= id < |st.objs|
      ensures From(st.objs[id], ranges)
    {
      var x, rest := st.objs[id], ranges[..|ranges| - 1];
      assert From(x, rest);
      var k :| 0 <= k < |rest| && Records(rest[k], x.address) && x.symbol == rest[k].symbol && x.file == rest[k].file;
      assert Records(ranges[k], x.address);
    }
  }

  lemma RangeRecords(st: State, r: Range, ranges: seq<Range>)
    requires Sound(st) && OneEach(st) && Unhit(st) && Complete(r) && r.start !in st.lookup
    requires forall a | Records(r, a) :: a !in st.lookup
    requires r.file in st.files ==> st.files[r.file].package == r.package
    requires Agrees(st, ranges) && Carries(st, ranges) && r in ranges
    ensures var t := AddRange(st, r);
      && t.Some? && Sound(t.value) && OneEach(t.value) && Unhit(t.value)
      && Agrees(t.value, ranges) && Carries(t.value, ranges)
      && forall a :: a in t.value.lookup <==> a in st.lookup || Records(r, a)
  {
    RestRecords(st, r, r.start, ranges);
  }

  lemma {:induction false} RestRecords(st: State, r: Range, a: int, ranges: seq<Range>)
    requires Sound(st) && OneEach(st) && Unhit(st) && r.start <= a && (a - r.start) % 4 == 0
    requires forall x | Records(r, x) && a <= x :: x !in st.lookup
    requires r.file in st.files ==> st.files[r.file].package == r.package
    requires Agrees(st, ranges) && Carries(st, ranges) && r in ranges
    ensures var t := RecordFrom(st, r, a);
      && t.Some? && Sound(t.value) && OneEach(t.value) && Unhit(t.value)
      && Agrees(t.value, ranges) && Carries(t.value, ranges)
      && forall x :: x in t.value.lookup <==> x in st.lookup || (Records(r, x) && a <= x)
    decreases r.end - a
  {
    hide Sound, OneEach, Unhit, Agrees, Carries, Record, Skipped;
    if a < r.end {
      if Skipped(r, a) {
        RestRecords(st, r, a + 4, ranges);
      } else {
        assert Records(r, a);
        RecordOne(st, r, a, ranges);
        var t := Record(st, a, r.symbol, r.file, r.package).value;
        RestRecords(t, r, a + 4, ranges);
      }
    }
  }

  lemma RecordOne(st: State, r: Range, a: int, ranges: seq<Range>)
    requires Sound(st) && OneEach(st) && Unhit(st) && a !in st.lookup && Records(r, a)
    requires r.file in st.files ==> st.files[r.file].package == r.package
    requires Agrees(st, ranges) && Carries(st, ranges) && r in ranges
    ensures var t := Record(st, a, r.symbol, r.file, r.package);
      && t.Some? && Sound(t.value) && OneEach(t.value) && Unhit(t.value)
      && Agrees(t.value, ranges) && Carries(t.value, ranges)
      && t.value.lookup.Keys == st.lookup.Keys + {a}
      && r.file in t.value.files && t.value.files[r.file].package == r.package
  {
    hide Sound, WithAddress, Records;
    RecordKeepsSound(st, a, r.symbol, r.file, r.package);
    var k :| 0 <= k < |ranges| && ranges[k] == r;
    assert From(Address(a, r.file, r.symbol, false), ranges);
  }

  /** An object is in the list of its own symbol and in no other, once. */
  lemma InExactlyOneSymbol(st: State, id: nat, file: string, i: nat)
    requires Sound(st) && id < |st.objs| && file in st.files && i < |st.files[file].symbols|
    ensures var s := st.files[file].symbols[i];
      && (id in s.addrs <==> st.objs[id].file == file && st.objs[id].symbol == s.name)
      && (forall x, y | 0 <= x < y < |s.addrs| :: s.addrs[x] < s.addrs[y])
      && HasSymbol(st.files, st.objs[id].file, st.objs[id].symbol)
  {
    assert FileSound(st.files[file], file, st.objs);
    IdsMember(st.objs, file, st.files[file].symbols[i].name, id);
    var s := st.files[file].symbols[i];
    forall x, y | 0 <= x < y < |s.addrs|
      ensures s.addrs[x] < s.addrs[y]
    {
      IdsAscend(st.objs, file, s.name, x, y);
    }
  }

  lemma {:induction false} IdsAscend(objs: seq<Address>, file: string, symbol: string, x: nat, y: nat)
    requires x <= y < |IdsOf(objs, file, symbol)|
    ensures var ids := IdsOf(objs, file, symbol); ids[y] < |objs| && (x < y ==> ids[x] < ids[y])
  {
    var n := |objs| - 1;
    var rest := IdsOf(objs[..n], file, symbol);
    if y < |rest| {
      IdsAscend(objs[..n], file, symbol, x, y);
    } else if x < |rest| {
      IdsAscend(objs[..n], file, symbol, x, x);
    }
  }

  // ---------------------------------------------------------------- reading a trace

  function Traced(st: State, trace: seq<int>): State {
    if trace == [] then st
    else
      var n := |trace| - 1;
      Hit(Traced(st, trace[..n]), trace[n])
  }

  function Hit(st: State, a: int): State {
    if a in st.lookup && st.lookup[a] < |st.objs|
    then st.(objs := st.objs[st.lookup[a] := st.objs[st.lookup[a]].(hit := true)])
    else st
  }

  method ReadTracelog(st: State, trace: seq<int>) returns (r: State)
    requires Looked(st)
    ensures r == Traced(st, trace)
  {
    r := st;
    for i := 0 to |trace|
      invariant r == Traced(st, trace[..i])
    {
      assert trace[..i + 1][..i] == trace[..i];
      if trace[i] in r.lookup {
        TracedShape(st, trace[..i]);
        LookedUp(st, trace[i]);
        var id := r.lookup[trace[i]];
        r := r.(objs := r.objs[id := r.objs[id].(hit := true)]);
      }
    }
    assert trace[..|trace|] == trace;
  }

  lemma LookedUp(st: State, a: int)
    requires Looked(st) && a in st.lookup
    ensures st.lookup[a] < |st.objs|
  {}

  lemma {:induction false} TracedShape(st: State, trace: seq<int>)
    requires Looked(st)
    ensures var t := Traced(st, trace);
      && t.lookup == st.lookup && t.files == st.files && t.packages == st.packages && |t.objs| == |st.objs|
      && forall id | 0 <= id < |st.objs| :: t.objs[id].(hit := false) == st.objs[id].(hit := false)
  {
    if trace != [] { TracedShape(st, trace[..|trace| - 1]); }
  }

  /** A trace hits exactly the objects whose address is in it. */
  lemma {:induction false} TraceHits(st: State, trace: seq<int>, id: nat)
    requires Looked(st) && OneEach(st) && id < |st.objs|
    ensures |Traced(st, trace).objs| == |st.objs|
    ensures Traced(st, trace).objs[id].hit <==> st.objs[id].hit || st.objs[id].address in trace
  {
    hide Looked, OneEach, Hit;
    if trace != [] {
      var n := |trace| - 1;
      var s := Traced(st, trace[..n]);
      TracedShape(st, trace[..n]);
      TraceHits(st, trace[..n], id);
      HitStep(s, trace[n], id);
      FoundBy(st, trace[n], id);
      assert trace == trace[..n] + [trace[n]];
    }
  }

  lemma HitStep(st: State, a: int, id: nat)
    requires id < |st.objs|
    ensures |Hit(st, a).objs| == |st.objs|
    ensures Hit(st, a).objs[id].hit <==> st.objs[id].hit || (a in st.lookup && st.lookup[a] == id)
  {}

  lemma FoundBy(st: State, a: int, id: nat)
    requires Looked(st) && OneEach(st) && id < |st.objs|
    ensures a in st.lookup && st.lookup[a] == id <==> a == st.objs[id].address
  {}

  // ---------------------------------------------------------------- coverage

  function HitsIn(objs: seq<Address>, ids: seq<nat>): (n: nat)
    ensures n <= |ids|
  {
    if ids == [] then 0
    else
      var k := |ids| - 1;
      HitsIn(objs, ids[..k]) + if ids[k] < |objs| && objs[ids[k]].hit then 1 else 0
  }

  /** The objects of a symbol, and those of them hit, counted over the flat list. */
  function FlatCount(objs: seq<Address>, file: string, symbol: string, hitsOnly: bool): nat {
    if objs == [] then 0
    else
      var n := |objs| - 1;
      FlatCount(objs[..n], file, symbol, hitsOnly) +
      if objs[n].file == file && objs[n].symbol == symbol && (objs[n].hit || !hitsOnly) then 1 else 0
  }

  lemma {:induction false} IdsCount(objs: seq<Address>, n: nat, file: string, symbol: string)
    requires n <= |objs|
    ensures var ids := IdsOf(objs[..n], file, symbol);
      && |ids| == FlatCount(objs[..n], file, symbol, false)
      && HitsIn(objs, ids) == FlatCount(objs[..n], file, symbol, true)
  {
    if n > 0 {
      IdsCount(objs, n - 1, file, symbol);
      var ids := IdsOf(objs[..n], file, symbol);
      assert objs[..n][..n - 1] == objs[..n - 1];
      if objs[n - 1].file == file && objs[n - 1].symbol == symbol {
        assert ids[..|ids| - 1] == IdsOf(objs[..n - 1], file, symbol);
      } else {
        assert ids == IdsOf(objs[..n - 1], file, symbol);
      }
    }
  }

  /** A list in the tree counts the same as the flat list. */
  lemma TreeIsFlat(st: State, file: string, i: nat)
    requires FilesSound(st) && file in st.files && i < |st.files[file].symbols|
    ensures var s := st.files[file].symbols[i];
      && |s.addrs| == FlatCount(st.objs, file, s.name, false) > 0
      && HitsIn(st.objs, s.addrs) == FlatCount(st.objs, file, s.name, true)
  {
    assert FileSound(st.files[file], file, st.objs);
    IdsCount(st.objs, |st.objs|, file, st.files[file].symbols[i].name);
    assert st.objs[..|st.objs|] == st.objs;
  }

  function SymbolCoverage(objs: seq<Address>, s: Symbol): (c: real)
    ensures 0.0 <= c <= 100.0 && (s.addrs == [] ==> c == 0.0)
  {
    if s.addrs == [] then 0.0
    else
      MeanBound(HitsIn(objs, s.addrs) as real * 100.0, |s.addrs|);
      HitsIn(objs, s.addrs) as real * 100.0 / |s.addrs| as real
  }

  lemma {:induction false} IdsIgnoreHits(a: seq<Address>, b: seq<Address>, file: string, symbol: string)
    requires |a| == |b| && forall i | 0 <= i < |a| :: a[i].(hit := false) == b[i].(hit := false)
    ensures IdsOf(a, file, symbol) == IdsOf(b, file, symbol)
  {
    if a != [] {
      var n := |a| - 1;
      assert a[n].(hit := false) == b[n].(hit := false);
      IdsIgnoreHits(a[..n], b[..n], file, symbol);
    }
  }

  lemma TraceKeepsFiles(st: State, trace: seq<int>)
    requires Looked(st) && FilesSound(st)
    ensures FilesSound(Traced(st, trace))
  {
    hide Traced, IdsOf;
    var t := Traced(st, trace);
    TracedShape(st, trace);
    forall f | f in t.files
      ensures FileSound(t.files[f], f, t.objs)
    {
      assert FileSound(st.files[f], f, st.objs);
      forall i | 0 <= i < |t.files[f].symbols|
        ensures t.files[f].symbols[i].addrs == IdsOf(t.objs, f, t.files[f].symbols[i].name)
      {
        IdsIgnoreHits(st.objs, t.objs, f, t.files[f].symbols[i].name);
      }
    }
  }

  lemma NotHitYet(st: State, id: nat)
    requires Unhit(st) && id < |st.objs|
    ensures !st.objs[id].hit
  {}

  /** After a scan and a trace, a symbol's coverage is the share of its recorded words that are in the trace. */
  lemma ScanCoverage(ranges: seq<Range>, trace: seq<int>, file: string, i: nat)
    requires AllComplete(ranges) && NoClash(ranges) && OnePackage(ranges)
    requires var st := Run(ranges); st.Some? && file in st.value.files && i < |st.value.files[file].symbols|
    ensures var st := Run(ranges).value;
      var t, s := Traced(st, trace), st.files[file].symbols[i];
      && t.files == st.files && |t.objs| == |st.objs|
      && FlatCount(t.objs, file, s.name, false) > 0
      && SymbolCoverage(t.objs, s) ==
         FlatCount(t.objs, file, s.name, true) as real * 100.0 / FlatCount(t.objs, file, s.name, false) as real
      && forall id | 0 <= id < |t.objs| :: t.objs[id].hit <==> t.objs[id].address in trace
  {
    hide Traced, Run, FlatCount, HitsIn, AllComplete, NoClash, OnePackage, OneEach, Unhit, Looked, FilesSound, Placed, Packaged;
    ScanRecords(ranges);
    var st := Run(ranges).value;
    var t := Traced(st, trace);
    TracedShape(st, trace);
    TraceKeepsFiles(st, trace);
    TreeIsFlat(t, file, i);
    forall id | 0 <= id < |t.objs|
      ensures t.objs[id].hit <==> t.objs[id].address in trace
    {
      TraceHits(st, trace, id);
      NotHitYet(st, id);
      assert t.objs[id].(hit := false) == st.objs[id].(hit := false);
    }
  }

  lemma MeanBound(sum: real, n: nat)
    requires n > 0 && 0.0 <= sum <= 100.0 * n as real
    ensures 0.0 <= sum / n as real <= 100.0
  {
    var m := sum / n as real;
    assert m * n as real == sum;
    if m > 100.0 { assert m * n as real > 100.0 * n as real; }
  }
}

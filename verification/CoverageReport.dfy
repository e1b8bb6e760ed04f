/**
 The coverage figures of tools/coverage.py, with the value that every symbol,
 file and package keeps from the first time it is asked.
 */
module CoverageReport {
  import opened Coverage

  // ---------------------------------------------------------------- the figures

  function Sum(xs: seq<real>): real {
    if xs == [] then 0.0 else Sum(xs[..|xs| - 1]) + xs[|xs| - 1]
  }

  function Mean(xs: seq<real>): real {
    if xs == [] then 0.0 else Sum(xs) / |xs| as real
  }

  /** The mean makes up for all the figures; sums are those of the parts, in whatever order; no figures give 0. */
  lemma {:induction false} MeanIs(xs: seq<real>, ys: seq<real>)
    ensures Mean(xs) * |xs| as real == Sum(xs) && (xs == [] ==> Mean(xs) == 0.0)
    ensures Sum(xs + ys) == Sum(xs) + Sum(ys) == Sum(ys + xs)
    ensures |xs| == 1 ==> Sum(xs) == xs[0]
  {
    SumJoins(xs, ys);
    SumJoins(ys, xs);
    if |xs| == 1 { assert Sum(xs[..0]) == 0.0; }
  }

  lemma {:induction false} SumJoins(xs: seq<real>, ys: seq<real>)
    ensures Sum(xs + ys) == Sum(xs) + Sum(ys)
  {
    if ys == [] {
      assert xs + ys == xs;
    } else {
      var n := |ys| - 1;
      SumJoins(xs, ys[..n]);
      assert (xs + ys)[..|xs| + n] == xs + ys[..n];
    }
  }

  function SymbolValues(objs: seq<Address>, symbols: seq<Symbol>): (r: seq<real>)
    ensures |r| == |symbols| && forall i | 0 <= i < |r| :: r[i] == SymbolCoverage(objs, symbols[i])
  {
    if symbols == [] then []
    else SymbolValues(objs, symbols[..|symbols| - 1]) + [SymbolCoverage(objs, symbols[|symbols| - 1])]
  }

  function FileValue(st: State, file: string): real
    requires file in st.files
  {
    Mean(SymbolValues(st.objs, st.files[file].symbols))
  }

  ghost predicate Known(st: State, files: seq<string>) {
    forall i | 0 <= i < |files| :: files[i] in st.files
  }

  ghost function FileValues(st: State, files: seq<string>): (r: seq<real>)
    requires Known(st, files)
    ensures |r| == |files| && forall i | 0 <= i < |r| :: r[i] == FileValue(st, files[i])
  {
    if files == [] then [] else FileValues(st, files[..|files| - 1]) + [FileValue(st, files[|files| - 1])]
  }

  ghost function PackageValue(st: State, package: string): real
    requires package in st.packages && Known(st, st.packages[package])
  {
    Mean(FileValues(st, st.packages[package]))
  }

  // ---------------------------------------------------------------- the figures kept

  type Key = (string, string)

  /** The `coverage` fields that are not -1. */
  datatype Cache = Cache(symbols: map<Key, real>, files: map<string, real>, packages: map<string, real>)

  const NOTHING_KEPT: Cache := Cache(map[], map[], map[])

  /** What `get_coverage` of a symbol returns, and what is kept after it. */
  function SeenSymbol(objs: seq<Address>, c: Cache, file: string, s: Symbol): real {
    if (file, s.name) in c.symbols then c.symbols[(file, s.name)] else SymbolCoverage(objs, s)
  }

  function AfterSymbol(objs: seq<Address>, c: Cache, file: string, s: Symbol): Cache {
    c.(symbols := c.symbols[(file, s.name) := SeenSymbol(objs, c, file, s)])
  }

  function AfterSymbols(objs: seq<Address>, c: Cache, file: string, symbols: seq<Symbol>): Cache {
    if symbols == [] then c
    else
      var n := |symbols| - 1;
      AfterSymbol(objs, AfterSymbols(objs, c, file, symbols[..n]), file, symbols[n])
  }

  /** The figures of the symbols of a file, asked one after another. */
  function SeenSymbols(objs: seq<Address>, c: Cache, file: string, symbols: seq<Symbol>): seq<real> {
    if symbols == [] then []
    else
      var n := |symbols| - 1;
      SeenSymbols(objs, c, file, symbols[..n]) +
      [SeenSymbol(objs, AfterSymbols(objs, c, file, symbols[..n]), file, symbols[n])]
  }

  function SeenFile(st: State, c: Cache, file: string): real
    requires file in st.files
  {
    if file in c.files then c.files[file] else Mean(SeenSymbols(st.objs, c, file, st.files[file].symbols))
  }

  function AfterFile(st: State, c: Cache, file: string): Cache
    requires file in st.files
  {
    if file in c.files then c
    else
      var c' := AfterSymbols(st.objs, c, file, st.files[file].symbols);
      c'.(files := c'.files[file := SeenFile(st, c, file)])
  }

  ghost function AfterFiles(st: State, c: Cache, files: seq<string>): Cache
    requires Known(st, files)
  {
    if files == [] then c
    else
      var n := |files| - 1;
      AfterFile(st, AfterFiles(st, c, files[..n]), files[n])
  }

  ghost function SeenFiles(st: State, c: Cache, files: seq<string>): seq<real>
    requires Known(st, files)
  {
    if files == [] then []
    else
      var n := |files| - 1;
      SeenFiles(st, c, files[..n]) + [SeenFile(st, AfterFiles(st, c, files[..n]), files[n])]
  }

  ghost function SeenPackage(st: State, c: Cache, package: string): real
    requires package in st.packages && Known(st, st.packages[package])
  {
    if package in c.packages then c.packages[package] else Mean(SeenFiles(st, c, st.packages[package]))
  }

  ghost function AfterPackage(st: State, c: Cache, package: string): Cache
    requires package in st.packages && Known(st, st.packages[package])
  {
    if package in c.packages then c
    else
      var c' := AfterFiles(st, c, st.packages[package]);
      c'.(packages := c'.packages[package := SeenPackage(st, c, package)])
  }

  class Report {
    var cache: Cache

    constructor ()
      ensures cache == NOTHING_KEPT
    {
      cache := NOTHING_KEPT;
    }

    /** While what is kept is right the answer is, and what is kept stays right. */
    method GetSymbol(st: State, file: string, s: Symbol) returns (r: real)
      modifies this
      ensures Tree(st) && Right(st, old(cache)) && file in st.files && s in st.files[file].symbols ==>
        r == SymbolCoverage(st.objs, s) && Right(st, cache)
      ensures (file, s.name) in old(cache).symbols ==> r == old(cache).symbols[(file, s.name)] && cache == old(cache)
      ensures r == SeenSymbol(st.objs, old(cache), file, s) && cache == AfterSymbol(st.objs, old(cache), file, s)
    {
      hide Tree, Right, SymbolCoverage;
      if (file, s.name) !in cache.symbols {
        cache := cache.(symbols := cache.symbols[(file, s.name) := SymbolCoverage(st.objs, s)]);
      }
      r := cache.symbols[(file, s.name)];
      assert cache.symbols == AfterSymbol(st.objs, old(cache), file, s).symbols;
      if Tree(st) && Right(st, old(cache)) && file in st.files && s in st.files[file].symbols {
        ghost var i :| 0 <= i < |st.files[file].symbols| && st.files[file].symbols[i] == s;
        RightSymbol(st, old(cache), file, i);
        SymbolKeepsRight(st, old(cache), file, i);
      }
    }

    /** Asks the symbols one after another and adds up what they return. */
    method SumSymbols(st: State, file: string, symbols: seq<Symbol>) returns (total: real)
      modifies this
      ensures total == Sum(SeenSymbols(st.objs, old(cache), file, symbols))
      ensures cache == AfterSymbols(st.objs, old(cache), file, symbols)
    {
      hide Sum, SeenSymbol, AfterSymbol;
      total := 0.0;
      SumOfNone();
      for i := 0 to |symbols|
        invariant total == Sum(SeenSymbols(st.objs, old(cache), file, symbols[..i]))
        invariant cache == AfterSymbols(st.objs, old(cache), file, symbols[..i])
      {
        assert symbols[..i + 1][..i] == symbols[..i];
        SumOfOneMore(SeenSymbols(st.objs, old(cache), file, symbols[..i]), SeenSymbol(st.objs, cache, file, symbols[i]));
        var share := GetSymbol(st, file, symbols[i]);
        total := total + share;
      }
      assert symbols[..|symbols|] == symbols;
    }

    method GetFile(st: State, file: string) returns (r: real)
      requires file in st.files
      modifies this
      ensures Tree(st) && Right(st, old(cache)) ==> r == FileValue(st, file) && Right(st, cache)
      ensures r == SeenFile(st, old(cache), file) && cache == AfterFile(st, old(cache), file)
    {
      hide Sum, SeenSymbols, AfterSymbols, Tree, Right, FileValue;
      if file !in cache.files {
        var symbols := st.files[file].symbols;
        SeenSymbolsLength(st.objs, cache, file, symbols);
        KeepsFiles(st.objs, cache, file, symbols);
        var total := SumSymbols(st, file, symbols);
        SumOfNone();
        if |symbols| != 0 {
          total := total / |symbols| as real;
        }
        cache := cache.(files := cache.files[file := total]);
      }
      r := cache.files[file];
      if Tree(st) && Right(st, old(cache)) {
        RightFile(st, old(cache), file);
        FileKeepsRight(st, old(cache), file);
      }
    }

    /** Asks the files one after another and adds up what they return. */
    method SumFiles(st: State, files: seq<string>) returns (total: real)
      requires Known(st, files)
      modifies this
      ensures total == Sum(SeenFiles(st, old(cache), files)) && cache == AfterFiles(st, old(cache), files)
    {
      hide Sum, SeenFile, AfterFile;
      total := 0.0;
      SumOfNone();
      for i := 0 to |files|
        invariant total == Sum(SeenFiles(st, old(cache), files[..i]))
        invariant cache == AfterFiles(st, old(cache), files[..i])
      {
        assert files[..i + 1][..i] == files[..i];
        SumOfOneMore(SeenFiles(st, old(cache), files[..i]), SeenFile(st, cache, files[i]));
        var share := GetFile(st, files[i]);
        total := total + share;
      }
      assert files[..|files|] == files;
    }

    method GetPackage(st: State, package: string) returns (r: real)
      requires package in st.packages && Known(st, st.packages[package])
      modifies this
      ensures Tree(st) && Right(st, old(cache)) ==> r == PackageValue(st, package) && Right(st, cache)
      ensures r == SeenPackage(st, old(cache), package) && cache == AfterPackage(st, old(cache), package)
    {
      hide Sum, SeenFiles, AfterFiles, Tree, Right, PackageValue;
      if package !in cache.packages {
        var files := st.packages[package];
        SeenFilesLength(st, cache, files);
        var total := SumFiles(st, files);
        SumOfNone();
        if |files| != 0 {
          total := total / |files| as real;
        }
        cache := cache.(packages := cache.packages[package := total]);
      }
      r := cache.packages[package];
      if Tree(st) && Right(st, old(cache)) {
        RightPackage(st, old(cache), package);
        PackageKeepsRight(st, old(cache), package);
      }
    }
  }

  lemma SumOfNone()
    ensures Sum([]) == 0.0
  {}

  lemma SumOfOneMore(xs: seq<real>, x: real)
    ensures Sum(xs + [x]) == Sum(xs) + x
  {
    assert (xs + [x])[..|xs|] == xs;
  }

  lemma {:induction false} SeenSymbolsLength(objs: seq<Address>, c: Cache, file: string, symbols: seq<Symbol>)
    ensures |SeenSymbols(objs, c, file, symbols)| == |symbols|
  {
    if symbols != [] { SeenSymbolsLength(objs, c, file, symbols[..|symbols| - 1]); }
  }

  lemma {:induction false} SeenFilesLength(st: State, c: Cache, files: seq<string>)
    requires Known(st, files)
    ensures |SeenFiles(st, c, files)| == |files|
  {
    if files != [] { SeenFilesLength(st, c, files[..|files| - 1]); }
  }

  lemma {:induction false} KeepsFiles(objs: seq<Address>, c: Cache, file: string, symbols: seq<Symbol>)
    ensures AfterSymbols(objs, c, file, symbols).files == c.files
  {
    if symbols != [] { KeepsFiles(objs, c, file, symbols[..|symbols| - 1]); }
  }

  // ---------------------------------------------------------------- asking in any order

  datatype Query = OfSymbol(file: string, i: nat) | OfFile(file: string) | OfPackage(package: string)

  ghost predicate Exists(st: State, q: Query) {
    match q
    case OfSymbol(file, i) => file in st.files && i < |st.files[file].symbols|
    case OfFile(file) => file in st.files
    case OfPackage(package) => package in st.packages && Known(st, st.packages[package])
  }

  /** The figure itself. */
  ghost function Value(st: State, q: Query): real
    requires Exists(st, q)
  {
    match q
    case OfSymbol(file, i) => SymbolCoverage(st.objs, st.files[file].symbols[i])
    case OfFile(file) => FileValue(st, file)
    case OfPackage(package) => PackageValue(st, package)
  }

  /** What is returned for it. */
  ghost function Seen(st: State, c: Cache, q: Query): real
    requires Exists(st, q)
  {
    match q
    case OfSymbol(file, i) => SeenSymbol(st.objs, c, file, st.files[file].symbols[i])
    case OfFile(file) => SeenFile(st, c, file)
    case OfPackage(package) => SeenPackage(st, c, package)
  }

  ghost function After(st: State, c: Cache, q: Query): Cache
    requires Exists(st, q)
  {
    match q
    case OfSymbol(file, i) => AfterSymbol(st.objs, c, file, st.files[file].symbols[i])
    case OfFile(file) => AfterFile(st, c, file)
    case OfPackage(package) => AfterPackage(st, c, package)
  }

  ghost predicate AllExist(st: State, qs: seq<Query>) {
    forall i | 0 <= i < |qs| :: Exists(st, qs[i])
  }

  /** What is kept after the queries. */
  ghost function Kept(st: State, qs: seq<Query>): Cache
    requires AllExist(st, qs)
  {
    if qs == [] then NOTHING_KEPT
    else
      var n := |qs| - 1;
      After(st, Kept(st, qs[..n]), qs[n])
  }

  /** Everything kept is the figure of this state. */
  ghost predicate Right(st: State, c: Cache) {
    && (forall f, i | f in st.files && 0 <= i < |st.files[f].symbols| && (f, st.files[f].symbols[i].name) in c.symbols ::
      c.symbols[(f, st.files[f].symbols[i].name)] == SymbolCoverage(st.objs, st.files[f].symbols[i]))
    && (forall f | f in st.files && f in c.files :: c.files[f] == FileValue(st, f))
    && (forall p | p in st.packages && p in c.packages && Known(st, st.packages[p]) :: c.packages[p] == PackageValue(st, p))
  }

  ghost predicate Tree(st: State) {
    FilesSound(st) && Packaged(st)
  }

  /** The caches say the same about a file and its symbols. */
  ghost predicate SameFor(c: Cache, c': Cache, file: string) {
    && (file in c.files <==> file in c'.files) && (file in c.files ==> c.files[file] == c'.files[file])
    && (forall name: string :: (file, name) in c.symbols <==> (file, name) in c'.symbols)
    && (forall name: string | (file, name) in c.symbols :: c.symbols[(file, name)] == c'.symbols[(file, name)])
  }

  // ---------------------------------------------------------------- what asking keeps

  /** Only the keys of the symbols asked are added. */
  lemma {:induction false} SymbolsKept(objs: seq<Address>, c: Cache, file: string, symbols: seq<Symbol>, key: Key)
    ensures var c' := AfterSymbols(objs, c, file, symbols);
      && c'.files == c.files && c'.packages == c.packages
      && (key in c.symbols ==> key in c'.symbols && c'.symbols[key] == c.symbols[key])
      && (key in c'.symbols && key !in c.symbols ==>
           exists i | 0 <= i < |symbols| :: key == (file, symbols[i].name))
  {
    if symbols != [] {
      var n := |symbols| - 1;
      SymbolsKept(objs, c, file, symbols[..n], key);
      SymbolsKept(objs, c, file, symbols[..n], (file, symbols[n].name));
      if i :| 0 <= i < n && key == (file, symbols[..n][i].name) {
        assert key == (file, symbols[i].name);
      }
    }
  }

  ghost predicate Distinct(symbols: seq<Symbol>) {
    forall i, j | 0 <= i < j < |symbols| :: symbols[i].name != symbols[j].name
  }

  /** Symbols with different names do not disturb each other. */
  lemma {:induction false} SeenSymbolsAt(objs: seq<Address>, c: Cache, file: string, symbols: seq<Symbol>)
    requires Distinct(symbols)
    ensures var r := SeenSymbols(objs, c, file, symbols);
      |r| == |symbols| && forall i | 0 <= i < |r| :: r[i] == SeenSymbol(objs, c, file, symbols[i])
  {
    if symbols != [] {
      var n := |symbols| - 1;
      SeenSymbolsAt(objs, c, file, symbols[..n]);
      SymbolsKept(objs, c, file, symbols[..n], (file, symbols[n].name));
      assert forall i | 0 <= i < n :: symbols[..n][i].name != symbols[n].name;
    }
  }

  /** Each symbol asked is kept as it was seen. */
  lemma {:induction false} SymbolsKeptAs(objs: seq<Address>, c: Cache, file: string, symbols: seq<Symbol>, i: nat)
    requires Distinct(symbols) && i < |symbols|
    ensures var c', key := AfterSymbols(objs, c, file, symbols), (file, symbols[i].name);
      key in c'.symbols && c'.symbols[key] == SeenSymbol(objs, c, file, symbols[i])
  {
    var n := |symbols| - 1;
    if i < n {
      SymbolsKeptAs(objs, c, file, symbols[..n], i);
    } else {
      SymbolsKept(objs, c, file, symbols[..n], (file, symbols[n].name));
      assert forall j | 0 <= j < n :: symbols[..n][j].name != symbols[n].name;
    }
  }

  lemma DistinctIn(st: State, file: string)
    requires Tree(st) && file in st.files
    ensures Distinct(st.files[file].symbols)
  {
    assert FileSound(st.files[file], file, st.objs);
  }

  /** Asking one file changes nothing for another. */
  lemma OtherFileSame(st: State, c: Cache, file: string, other: string)
    requires file in st.files && file != other
    ensures SameFor(c, AfterFile(st, c, file), other)
  {
    var c' := AfterFile(st, c, file);
    forall name: string
      ensures (other, name) in c.symbols <==> (other, name) in c'.symbols
      ensures (other, name) in c.symbols ==> c.symbols[(other, name)] == c'.symbols[(other, name)]
    {
      SymbolsKept(st.objs, c, file, st.files[file].symbols, (other, name));
    }
    SymbolsKept(st.objs, c, file, st.files[file].symbols, (other, ""));
  }

  lemma SameSeen(st: State, c: Cache, c': Cache, file: string)
    requires Tree(st) && file in st.files && SameFor(c, c', file)
    ensures SeenFile(st, c, file) == SeenFile(st, c', file)
  {
    hide Tree;
    var symbols := st.files[file].symbols;
    DistinctIn(st, file);
    SeenSymbolsAt(st.objs, c, file, symbols);
    SeenSymbolsAt(st.objs, c', file, symbols);
    assert SeenSymbols(st.objs, c, file, symbols) == SeenSymbols(st.objs, c', file, symbols);
  }

  lemma SameForTrans(c: Cache, c': Cache, c'': Cache, file: string)
    requires SameFor(c, c', file) && SameFor(c', c'', file)
    ensures SameFor(c, c'', file)
  {}

  lemma {:induction false} OtherFilesSame(st: State, c: Cache, files: seq<string>, other: string)
    requires Known(st, files) && other !in files
    ensures SameFor(c, AfterFiles(st, c, files), other)
  {
    hide SameFor, AfterFile;
    if files == [] {
      SameForItself(c, other);
    } else {
      var n := |files| - 1;
      OtherFilesSame(st, c, files[..n], other);
      OtherFileSame(st, AfterFiles(st, c, files[..n]), files[n], other);
      SameForTrans(c, AfterFiles(st, c, files[..n]), AfterFiles(st, c, files), other);
    }
  }

  lemma SameForItself(c: Cache, file: string)
    ensures SameFor(c, c, file)
  {}

  /** Files of a package do not disturb each other. */
  lemma {:induction false} SeenFilesAt(st: State, c: Cache, files: seq<string>)
    requires Tree(st) && Known(st, files) && Once(files)
    ensures var r := SeenFiles(st, c, files);
      |r| == |files| && forall i | 0 <= i < |r| :: r[i] == SeenFile(st, c, files[i])
  {
    hide Tree, SeenFile, AfterFile;
    if files != [] {
      var n := |files| - 1;
      SeenFilesAt(st, c, files[..n]);
      LastIsNew(files);
      OtherFilesSame(st, c, files[..n], files[n]);
      SameSeen(st, c, AfterFiles(st, c, files[..n]), files[n]);
    }
  }

  lemma LastIsNew(files: seq<string>)
    requires files != [] && Once(files)
    ensures files[|files| - 1] !in files[..|files| - 1]
  {}

  // ---------------------------------------------------------------- what is returned is right

  lemma RightSymbol(st: State, c: Cache, file: string, i: nat)
    requires Right(st, c) && file in st.files && i < |st.files[file].symbols|
    ensures SeenSymbol(st.objs, c, file, st.files[file].symbols[i]) == SymbolCoverage(st.objs, st.files[file].symbols[i])
  {}

  lemma RightFile(st: State, c: Cache, file: string)
    requires Tree(st) && Right(st, c) && file in st.files
    ensures SeenFile(st, c, file) == FileValue(st, file)
  {
    hide Tree;
    var symbols := st.files[file].symbols;
    DistinctIn(st, file);
    SeenSymbolsAt(st.objs, c, file, symbols);
    forall i | 0 <= i < |symbols|
      ensures SeenSymbol(st.objs, c, file, symbols[i]) == SymbolCoverage(st.objs, symbols[i])
    {
      RightSymbol(st, c, file, i);
    }
    assert SeenSymbols(st.objs, c, file, symbols) == SymbolValues(st.objs, symbols);
  }

  lemma RightPackage(st: State, c: Cache, package: string)
    requires Tree(st) && Right(st, c) && package in st.packages && Known(st, st.packages[package])
    ensures SeenPackage(st, c, package) == PackageValue(st, package)
  {
    hide FilesSound, SeenFile, FileValue;
    var files := st.packages[package];
    SeenFilesAt(st, c, files);
    forall i | 0 <= i < |files|
      ensures SeenFile(st, c, files[i]) == FileValue(st, files[i])
    {
      RightFile(st, c, files[i]);
    }
    assert SeenFiles(st, c, files) == FileValues(st, files);
  }

  lemma SymbolKeepsRight(st: State, c: Cache, file: string, i: nat)
    requires Tree(st) && Right(st, c) && file in st.files && i < |st.files[file].symbols|
    ensures Right(st, AfterSymbol(st.objs, c, file, st.files[file].symbols[i]))
  {
    hide Tree;
    DistinctIn(st, file);
    RightSymbol(st, c, file, i);
    var symbols := st.files[file].symbols;
    var c' := AfterSymbol(st.objs, c, file, symbols[i]);
    forall f, j | f in st.files && 0 <= j < |st.files[f].symbols| && (f, st.files[f].symbols[j].name) in c'.symbols
      ensures c'.symbols[(f, st.files[f].symbols[j].name)] == SymbolCoverage(st.objs, st.files[f].symbols[j])
    {
      if f == file && symbols[j].name == symbols[i].name { assert i == j; }
    }
  }

  lemma {:induction false} SymbolsKeepRight(st: State, c: Cache, file: string, n: nat)
    requires Tree(st) && Right(st, c) && file in st.files && n <= |st.files[file].symbols|
    ensures Right(st, AfterSymbols(st.objs, c, file, st.files[file].symbols[..n]))
  {
    hide Tree, Right, AfterSymbol;
    var symbols := st.files[file].symbols;
    if n > 0 {
      SymbolsKeepRight(st, c, file, n - 1);
      assert symbols[..n][..n - 1] == symbols[..n - 1];
      SymbolKeepsRight(st, AfterSymbols(st.objs, c, file, symbols[..n - 1]), file, n - 1);
    }
  }

  lemma FileKeepsRight(st: State, c: Cache, file: string)
    requires Tree(st) && Right(st, c) && file in st.files
    ensures Right(st, AfterFile(st, c, file))
  {
    hide Tree, SeenFile, FileValue, AfterSymbols;
    var symbols := st.files[file].symbols;
    SymbolsKeepRight(st, c, file, |symbols|);
    assert symbols[..|symbols|] == symbols;
    RightFile(st, c, file);
  }

  lemma {:induction false} FilesKeepRight(st: State, c: Cache, files: seq<string>)
    requires Tree(st) && Right(st, c) && Known(st, files)
    ensures Right(st, AfterFiles(st, c, files))
  {
    hide Tree, Right, AfterFile;
    if files != [] {
      var n := |files| - 1;
      FilesKeepRight(st, c, files[..n]);
      FileKeepsRight(st, AfterFiles(st, c, files[..n]), files[n]);
    }
  }

  lemma PackageKeepsRight(st: State, c: Cache, package: string)
    requires Tree(st) && Right(st, c) && package in st.packages && Known(st, st.packages[package])
    ensures Right(st, AfterPackage(st, c, package))
  {
    hide Tree, SeenPackage, PackageValue, AfterFiles, FileValue;
    FilesKeepRight(st, c, st.packages[package]);
    RightPackage(st, c, package);
  }

  lemma QueryIsRight(st: State, c: Cache, q: Query)
    requires Tree(st) && Right(st, c) && Exists(st, q)
    ensures Seen(st, c, q) == Value(st, q) && Right(st, After(st, c, q))
  {
    hide Tree, Right, SeenSymbol, SeenFile, SeenPackage, FileValue, PackageValue, AfterSymbol, AfterFile, AfterPackage;
    match q
    case OfSymbol(file, i) => RightSymbol(st, c, file, i); SymbolKeepsRight(st, c, file, i);
    case OfFile(file) => RightFile(st, c, file); FileKeepsRight(st, c, file);
    case OfPackage(package) => RightPackage(st, c, package); PackageKeepsRight(st, c, package);
  }

  lemma {:induction false} KeptIsRight(st: State, qs: seq<Query>)
    requires Tree(st) && AllExist(st, qs)
    ensures Right(st, Kept(st, qs))
  {
    hide Tree, Seen, Value, After;
    if qs != [] {
      var n := |qs| - 1;
      KeptIsRight(st, qs[..n]);
      QueryIsRight(st, Kept(st, qs[..n]), qs[n]);
    }
  }

  /** Whatever has been asked before, in any order, the answer is the figure itself. */
  lemma EveryAnswerIsRight(st: State, qs: seq<Query>, q: Query)
    requires Tree(st) && AllExist(st, qs) && Exists(st, q)
    ensures Seen(st, Kept(st, qs), q) == Value(st, q)
  {
    KeptIsRight(st, qs);
    QueryIsRight(st, Kept(st, qs), q);
  }

  /** After a scan and a trace, for every order of asking. */
  lemma AnswersAfterScan(ranges: seq<Range>, trace: seq<int>, qs: seq<Query>, q: Query)
    requires AllComplete(ranges) && NoClash(ranges) && OnePackage(ranges) && Run(ranges).Some?
    requires var t := Traced(Run(ranges).value, trace); AllExist(t, qs) && Exists(t, q)
    ensures var t := Traced(Run(ranges).value, trace);
      Seen(t, Kept(t, qs), q) == Value(t, q) && 0.0 <= Value(t, q) <= 100.0
  {
    hide Run, Traced, AllComplete, NoClash, OnePackage, Sound, Tree, Seen, Value, Kept;
    ScanRecords(ranges);
    var t := Traced(Run(ranges).value, trace);
    TraceKeepsTree(Run(ranges).value, trace);
    EveryAnswerIsRight(t, qs, q);
    WithinHundred(t, q);
  }

  lemma WithinHundred(st: State, q: Query)
    requires Exists(st, q)
    ensures 0.0 <= Value(st, q) <= 100.0
  {
    match q
    case OfSymbol(file, i) =>
    case OfFile(file) => FileWithin(st, file);
    case OfPackage(package) =>
      var files := st.packages[package];
      forall i | 0 <= i < |files|
        ensures 0.0 <= FileValues(st, files)[i] <= 100.0
      {
        FileWithin(st, files[i]);
      }
      MeanWithin(FileValues(st, files));
  }

  lemma FileWithin(st: State, file: string)
    requires file in st.files
    ensures 0.0 <= FileValue(st, file) <= 100.0
  {
    MeanWithin(SymbolValues(st.objs, st.files[file].symbols));
  }

  lemma MeanWithin(xs: seq<real>)
    requires forall i | 0 <= i < |xs| :: 0.0 <= xs[i] <= 100.0
    ensures 0.0 <= Mean(xs) <= 100.0
  {
    SumWithin(xs);
    if xs != [] { MeanBound(Sum(xs), |xs|); }
  }

  lemma {:induction false} SumWithin(xs: seq<real>)
    requires forall i | 0 <= i < |xs| :: 0.0 <= xs[i] <= 100.0
    ensures 0.0 <= Sum(xs) <= 100.0 * |xs| as real
  {
    if xs != [] { SumWithin(xs[..|xs| - 1]); }
  }

  // ---------------------------------------------------------------- a trace read too late

  /** The trace hits a word of the symbol that was not hit before. */
  ghost predicate NewIn(st: State, trace: seq<int>, s: Symbol) {
    exists j | 0 <= j < |s.addrs| :: NewHit(st, trace, s.addrs[j])
  }

  ghost predicate NewHit(st: State, trace: seq<int>, id: nat) {
    id < |st.objs| && !st.objs[id].hit && st.objs[id].address in trace
  }

  lemma {:induction false} HitsGrow(st: State, trace: seq<int>, ids: seq<nat>)
    requires Looked(st) && OneEach(st)
    ensures var t := Traced(st, trace);
      && HitsIn(st.objs, ids) <= HitsIn(t.objs, ids)
      && (HitsIn(st.objs, ids) == HitsIn(t.objs, ids) <==> forall j | 0 <= j < |ids| :: !NewHit(st, trace, ids[j]))
  {
    hide Traced, Looked, OneEach;
    TracedShape(st, trace);
    if ids != [] {
      var n := |ids| - 1;
      HitsGrow(st, trace, ids[..n]);
      if ids[n] < |st.objs| { TraceHits(st, trace, ids[n]); }
      assert (forall j | 0 <= j < |ids| :: !NewHit(st, trace, ids[j])) <==>
        (forall j | 0 <= j < n :: !NewHit(st, trace, ids[..n][j])) && !NewHit(st, trace, ids[n]);
    }
  }

  lemma SymbolGrows(st: State, trace: seq<int>, s: Symbol)
    requires Looked(st) && OneEach(st) && s.addrs != []
    ensures var x, y := SymbolCoverage(st.objs, s), SymbolCoverage(Traced(st, trace).objs, s);
      x <= y && (x == y <==> !NewIn(st, trace, s))
  {
    hide Traced, HitsIn;
    HitsGrow(st, trace, s.addrs);
    Shares(HitsIn(st.objs, s.addrs), HitsIn(Traced(st, trace).objs, s.addrs), |s.addrs|);
  }

  lemma Shares(k: nat, k': nat, n: nat)
    requires n > 0 && k <= k'
    ensures k as real * 100.0 / n as real <= k' as real * 100.0 / n as real
    ensures k as real * 100.0 / n as real == k' as real * 100.0 / n as real <==> k == k'
  {
    Quotients(k as real * 100.0, k' as real * 100.0, n);
  }

  lemma Quotients(x: real, y: real, n: nat)
    requires n > 0 && x <= y
    ensures x / n as real <= y / n as real
    ensures x / n as real == y / n as real <==> x == y
  {
    var p, q := x / n as real, y / n as real;
    assert p * n as real == x && q * n as real == y;
  }

  lemma {:induction false} Sums(x: seq<real>, y: seq<real>)
    requires |x| == |y| && forall i | 0 <= i < |x| :: x[i] <= y[i]
    ensures Sum(x) <= Sum(y) && (Sum(x) == Sum(y) <==> x == y)
  {
    if x != [] {
      var n := |x| - 1;
      Sums(x[..n], y[..n]);
      assert x == x[..n] + [x[n]] && y == y[..n] + [y[n]];
    }
  }

  lemma Means(x: seq<real>, y: seq<real>)
    requires |x| == |y| && forall i | 0 <= i < |x| :: x[i] <= y[i]
    ensures Mean(x) <= Mean(y) && (Mean(x) == Mean(y) <==> x == y)
  {
    hide Sum;
    Sums(x, y);
    if x != [] { Quotients(Sum(x), Sum(y), |x|); }
  }

  /** Symbol `i` of the file has been asked, alone, with its file, or with the whole package; and has a new hit. */
  ghost predicate Missed(st: State, trace: seq<int>, c: Cache, file: string, i: nat, whole: bool)
    requires file in st.files && i < |st.files[file].symbols|
  {
    var s := st.files[file].symbols[i];
    (whole || file in c.files || (file, s.name) in c.symbols) && NewIn(st, trace, s)
  }

  lemma SymbolRightIff(st: State, trace: seq<int>, c: Cache, file: string, i: nat)
    requires Sound(st) && OneEach(st) && Right(st, c) && file in st.files && i < |st.files[file].symbols|
    ensures var t, s := Traced(st, trace), st.files[file].symbols[i];
      var x, y := SeenSymbol(t.objs, c, file, s), SymbolCoverage(t.objs, s);
      x <= y && (x == y <==> !((file, s.name) in c.symbols && NewIn(st, trace, s)))
  {
    hide Traced, SymbolCoverage, Placed, Packaged, Looked;
    assert FileSound(st.files[file], file, st.objs);
    SymbolGrows(st, trace, st.files[file].symbols[i]);
  }

  /** What a file shows after the trace, or what it showed before it if the whole package is kept. */
  lemma FileRightIff(st: State, trace: seq<int>, c: Cache, file: string, whole: bool)
    requires Sound(st) && OneEach(st) && Right(st, c) && file in st.files
    ensures var t := Traced(st, trace);
      && t.files == st.files
      && var x, y := if whole then FileValue(st, file) else SeenFile(t, c, file), FileValue(t, file);
         x <= y && (x == y <==> forall i | 0 <= i < |st.files[file].symbols| :: !Missed(st, trace, c, file, i, whole))
  {
    hide Traced, Placed, Packaged, Looked, SymbolCoverage, Mean, NewIn;
    var t, symbols := Traced(st, trace), st.files[file].symbols;
    TracedShape(st, trace);
    DistinctIn(st, file);
    SeenSymbolsAt(t.objs, c, file, symbols);
    var x := if whole || file in c.files then SymbolValues(st.objs, symbols) else SeenSymbols(t.objs, c, file, symbols);
    var y := SymbolValues(t.objs, symbols);
    forall i | 0 <= i < |symbols|
      ensures x[i] <= y[i] && (x[i] == y[i] <==> !Missed(st, trace, c, file, i, whole))
    {
      assert FileSound(st.files[file], file, st.objs);
      SymbolGrows(st, trace, symbols[i]);
      SymbolRightIff(st, trace, c, file, i);
    }
    Means(x, y);
    assert x == y <==> forall i | 0 <= i < |symbols| :: x[i] == y[i];
  }

  /** Some object already asked, at or below the package, has a new hit. */
  ghost predicate MissedIn(st: State, trace: seq<int>, c: Cache, file: string, whole: bool)
    requires file in st.files
  {
    exists i | 0 <= i < |st.files[file].symbols| :: Missed(st, trace, c, file, i, whole)
  }

  lemma PackageRightIff(st: State, trace: seq<int>, c: Cache, package: string)
    requires Sound(st) && OneEach(st) && Right(st, c) && package in st.packages && Known(st, st.packages[package])
    ensures var t, files := Traced(st, trace), st.packages[package];
      && t.files == st.files && t.packages == st.packages && Known(t, files)
      && var x, y := SeenPackage(t, c, package), PackageValue(t, package);
         && x <= y
         && (x == y <==> forall k | 0 <= k < |files| :: !MissedIn(st, trace, c, files[k], package in c.packages))
  {
    hide Traced, Placed, Looked, FilesSound, FileValue, SeenFile, Mean, Missed;
    var t, files := Traced(st, trace), st.packages[package];
    var whole := package in c.packages;
    TracedShape(st, trace);
    TraceKeepsTree(st, trace);
    SeenFilesAt(t, c, files);
    var x := if whole then FileValues(st, files) else SeenFiles(t, c, files);
    var y := FileValues(t, files);
    forall k | 0 <= k < |files|
      ensures x[k] <= y[k] && (x[k] == y[k] <==> !MissedIn(st, trace, c, files[k], whole))
    {
      FileRightIff(st, trace, c, files[k], whole);
    }
    Means(x, y);
    assert x == y <==> forall k | 0 <= k < |files| :: x[k] == y[k];
  }

  lemma TraceKeepsTree(st: State, trace: seq<int>)
    requires Sound(st)
    ensures Tree(Traced(st, trace))
  {
    hide Traced, FilesSound;
    TracedShape(st, trace);
    TraceKeepsFiles(st, trace);
  }

  /** Some object at or below the one asked for was asked before the trace, and the trace hits a new word below it. */
  ghost predicate Stale(st: State, trace: seq<int>, c: Cache, q: Query)
    requires Exists(st, q)
  {
    match q
    case OfSymbol(file, i) =>
      (file, st.files[file].symbols[i].name) in c.symbols && NewIn(st, trace, st.files[file].symbols[i])
    case OfFile(file) => MissedIn(st, trace, c, file, false)
    case OfPackage(package) =>
      exists k | 0 <= k < |st.packages[package]| ::
        MissedIn(st, trace, c, st.packages[package][k], package in c.packages)
  }

  /** After queries in any order and then a trace, an answer is the true figure if and only if it is not stale. */
  lemma LateTraceIsSeenIff(st: State, qs: seq<Query>, trace: seq<int>, q: Query)
    requires Sound(st) && OneEach(st) && AllExist(st, qs) && Exists(st, q)
    ensures var t := Traced(st, trace);
      Exists(t, q) && (Seen(t, Kept(st, qs), q) == Value(t, q) <==> !Stale(st, trace, Kept(st, qs), q))
  {
    hide Traced, Kept, Right, FilesSound, Placed, Packaged, Looked, MissedIn, NewIn, SeenSymbol, SeenFile, SeenPackage,
      FileValue, PackageValue, SymbolCoverage;
    var c := Kept(st, qs);
    KeptIsRight(st, qs);
    TracedShape(st, trace);
    match q
    case OfSymbol(file, i) => SymbolRightIff(st, trace, c, file, i);
    case OfFile(file) =>
      FileRightIff(st, trace, c, file, false);
      MissedInIff(st, trace, c, file);
    case OfPackage(package) => PackageRightIff(st, trace, c, package);
  }

  lemma MissedInIff(st: State, trace: seq<int>, c: Cache, file: string)
    requires file in st.files
    ensures MissedIn(st, trace, c, file, false) <==>
      !forall i | 0 <= i < |st.files[file].symbols| :: !Missed(st, trace, c, file, i, false)
  {}

  /** For instance: one word, asked for and then hit, stays at 0. */
  lemma StaleAtZero()
    ensures var s, c := Symbol("s", [0]), Cache(map[("f", "s") := 0.0], map[], map[]);
      var objs := [Address(4, "f", "s", false)];
      var st := State(objs, map[4 := 0], map["f" := File("p", [s])], map["p" := ["f"]]);
      && c == AfterSymbol(objs, NOTHING_KEPT, "f", s)
      && SeenSymbol(Traced(st, [4]).objs, c, "f", s) == 0.0 && SymbolCoverage(Traced(st, [4]).objs, s) == 100.0
  {
    var s, objs := Symbol("s", [0]), [Address(4, "f", "s", false)];
    var st := State(objs, map[4 := 0], map["f" := File("p", [s])], map["p" := ["f"]]);
    assert s.addrs[..0] == [];
    assert HitsIn(objs, s.addrs) == 0;
    assert [4][..0] == [];
    var t := Traced(st, [4]);
    assert t == Hit(st, 4);
    assert t.objs[0].hit;
    assert HitsIn(t.objs, s.addrs) == 1;
  }
}

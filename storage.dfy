/** The stored entities the core problem type creates and updates, and the
    lookups it makes against the store. Rows added during a call are not
    visible to the lookups of that call; the per-call caches of pending
    rows (`new_symbols`, `new_symbolsources`) are maps passed along. */
module Storage {
  import opened Wrappers

  /** `get_symbol_by_name_path` key: (name, normalized path). */
  type SymbolKey = (string, string)

  /** `get_ssource_by_bpo` key: (build id, path, offset). */
  type SourceKey = (Option<string>, string, int)

  class Symbol {
    const name: string
    const normalizedPath: string
    var niceName: Option<string>

    function Key(): SymbolKey
    {
      (name, normalizedPath)
    }

    constructor (name: string, normalizedPath: string)
      ensures this.name == name && this.normalizedPath == normalizedPath
      ensures niceName == None
    {
      this.name := name;
      this.normalizedPath := normalizedPath;
      niceName := None;
    }
  }

  class SymbolSource {
    const buildId: Option<string>
    const path: string
    const offset: int
    const hash: Option<string>
    var symbol: Symbol?
    var sourcePath: Option<string>
    var lineNumber: Option<int>
    var retraceFailCount: int

    function Key(): SourceKey
    {
      (buildId, path, offset)
    }

    constructor (symbol: Symbol?, buildId: Option<string>, path: string, offset: int,
                 hash: Option<string>, sourcePath: Option<string>, lineNumber: Option<int>)
      ensures this.symbol == symbol && this.buildId == buildId && this.path == path
      ensures this.offset == offset && this.hash == hash
      ensures this.sourcePath == sourcePath && this.lineNumber == lineNumber
      ensures retraceFailCount == 0
    {
      this.symbol := symbol;
      this.buildId := buildId;
      this.path := path;
      this.offset := offset;
      this.hash := hash;
      this.sourcePath := sourcePath;
      this.lineNumber := lineNumber;
      retraceFailCount := 0;
    }
  }

  class Thread {
    const number: int
    const crashThread: bool
    /** The frames of the thread, in the order they were attached. */
    var frames: seq<Frame>

    constructor (number: int, crashThread: bool)
      ensures this.number == number && this.crashThread == crashThread && frames == []
    {
      this.number := number;
      this.crashThread := crashThread;
      frames := [];
    }
  }

  class Frame {
    const thread: Thread
    const order: int
    const symbolSource: SymbolSource
    const inlined: bool

    constructor (thread: Thread, order: int, symbolSource: SymbolSource, inlined: bool)
      ensures this.thread == thread && this.order == order
      ensures this.symbolSource == symbolSource && this.inlined == inlined
    {
      this.thread := thread;
      this.order := order;
      this.symbolSource := symbolSource;
      this.inlined := inlined;
    }
  }

  datatype BtHash = BtHash(kind: string, hash: string)

  class Backtrace {
    var hashes: seq<BtHash>
    var threads: seq<Thread>

    constructor ()
      ensures hashes == [] && threads == []
    {
      hashes := [];
      threads := [];
    }
  }

  class Report {
    var errname: Option<string>
    var backtraces: seq<Backtrace>

    constructor ()
      ensures errname == None && backtraces == []
    {
      errname := None;
      backtraces := [];
    }
  }

  class ReportExecutable {
    const path: string
    var count: int

    constructor (path: string)
      ensures this.path == path && count == 0
    {
      this.path := path;
      count := 0;
    }
  }

  /** The rows the lookups can see: symbols by (name, normalized path),
      symbol sources by (build id, path, offset) and a report's executable
      by (report, path). */
  datatype Store = Store(
    symbols: map<SymbolKey, Symbol>,
    sources: map<SourceKey, SymbolSource>,
    executables: map<(Report, string), ReportExecutable>)
  {
    /** Each row is found under its own key. */
    ghost predicate Valid()
    {
      && (forall k :: k in symbols ==> symbols[k].Key() == k)
      && (forall k :: k in sources ==> sources[k].Key() == k)
      && (forall k :: k in executables ==> executables[k].path == k.1)
    }

    function SourceObjects(): set<SymbolSource>
    {
      set k | k in sources :: sources[k]
    }

    function SymbolObjects(): set<Symbol>
    {
      set k | k in symbols :: symbols[k]
    }

    function ExecutableObjects(): set<ReportExecutable>
    {
      set k | k in executables :: executables[k]
    }
  }

  /** The pending symbols of a call: each under its own key, none of them a
      key the store already has, all created during the call. */
  ghost predicate PendingSymbols(store: Store, pending: map<SymbolKey, Symbol>)
  {
    forall k :: k in pending ==> pending[k].Key() == k && k !in store.symbols
  }

  ghost predicate PendingSources(store: Store, pending: map<SourceKey, SymbolSource>)
  {
    forall k :: k in pending ==> pending[k].Key() == k && k !in store.sources
  }

  /** `big` keeps every entry of `small`. */
  ghost predicate Extends<K, V>(small: map<K, V>, big: map<K, V>)
  {
    forall k :: k in small ==> k in big && big[k] == small[k]
  }

  function Values<K, V>(m: map<K, V>): set<V>
  {
    set k | k in m :: m[k]
  }

  /** A symbol found in the store, else in the pending symbols, else a new
      one, which joins the pending symbols. */
  method GetOrCreateSymbol(store: Store, pending: map<SymbolKey, Symbol>, key: SymbolKey)
    returns (s: Symbol, pending': map<SymbolKey, Symbol>)
    requires store.Valid() && PendingSymbols(store, pending)
    ensures PendingSymbols(store, pending') && pending.Keys <= pending'.Keys
    ensures forall k :: k in pending ==> pending'[k] == pending[k]
    ensures s.Key() == key && key in store.symbols + pending' && s == (store.symbols + pending')[key]
    ensures key in store.symbols ==> s == store.symbols[key] && pending' == pending
    ensures key !in store.symbols && key in pending ==> s == pending[key] && pending' == pending
    ensures key !in store.symbols && key !in pending ==>
              fresh(s) && s.niceName == None && pending' == pending[key := s]
  {
    if key in store.symbols {
      return store.symbols[key], pending;
    }
    if key in pending {
      return pending[key], pending;
    }
    s := new Symbol(key.0, key.1);
    pending' := pending[key := s];
  }

  /** Attach a new frame to its thread, as setting the thread of a new
      frame row does. */
  method AttachFrame(thread: Thread, order: int, ss: SymbolSource, inlined: bool) returns (f: Frame)
    modifies thread
    ensures fresh(f) && f.thread == thread && f.order == order
    ensures f.symbolSource == ss && f.inlined == inlined
    ensures thread.frames == old(thread.frames) + [f]
  {
    f := new Frame(thread, order, ss, inlined);
    thread.frames := thread.frames + [f];
  }

  /** The objects the pending maps gained from `syms`, `srcs` to `syms'`,
      `srcs'` are among `made`. */
  ghost predicate MadeIn(syms: map<SymbolKey, Symbol>, srcs: map<SourceKey, SymbolSource>,
                         syms': map<SymbolKey, Symbol>, srcs': map<SourceKey, SymbolSource>, made: set<object>)
  {
    && (forall k :: k in syms' && k !in syms ==> syms'[k] in made)
    && (forall k :: k in srcs' && k !in srcs ==> srcs'[k] in made)
  }

  lemma MadeInTrans(syms: map<SymbolKey, Symbol>, srcs: map<SourceKey, SymbolSource>,
                    syms1: map<SymbolKey, Symbol>, srcs1: map<SourceKey, SymbolSource>,
                    syms2: map<SymbolKey, Symbol>, srcs2: map<SourceKey, SymbolSource>,
                    made1: set<object>, made2: set<object>)
    requires Extends(syms1, syms2) && Extends(srcs1, srcs2)
    requires MadeIn(syms, srcs, syms1, srcs1, made1) && MadeIn(syms1, srcs1, syms2, srcs2, made2)
    ensures MadeIn(syms, srcs, syms2, srcs2, made1 + made2)
  {
    forall k | k in syms2 && k !in syms
      ensures syms2[k] in made1 + made2
    {
      if k in syms1 {
        assert syms2[k] == syms1[k];
      }
    }
    forall k | k in srcs2 && k !in srcs
      ensures srcs2[k] in made1 + made2
    {
      if k in srcs1 {
        assert srcs2[k] == srcs1[k];
      }
    }
  }
}

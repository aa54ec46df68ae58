/** Option negotiation: what a client asks for, what a server grants, and what the client then
    believes. */
module Negotiation {
  import opened Basics
  import opened Options
  import opened Packets

  const DEFAULT_BLOCK_SIZE: u16 := 512
  const DEFAULT_TIMEOUT_SECS := 5
  const DEFAULT_WINDOW_SIZE: u16 := 1

  datatype Negotiated = Negotiated(blksize: u16, timeout: nat, windowsize: u16)

  const DEFAULTS := Negotiated(DEFAULT_BLOCK_SIZE, DEFAULT_TIMEOUT_SECS, DEFAULT_WINDOW_SIZE)

  datatype ServerConfig = ServerConfig(maxBlockSize: u16, allowWindowsize: bool)

  datatype ClientOptions = ClientOptions(
    mode: Mode,
    blksize: Option<u16>,
    timeoutSecs: Option<u8>,
    windowsize: Option<u16>,
    requestTsize: bool)

  /** The acknowledged options and the parameters the server will use. */
  datatype Grant = Grant(oack: seq<OptionValue>, neg: Negotiated)

  function Clamp(x: int, low: int, high: int): int
    requires low <= high
  {
    Max(low, Min(x, high))
  }

  function AddIf(items: seq<OptionValue>, present: bool, o: OptionValue): seq<OptionValue> {
    if present then items + [o] else items
  }

  /** Which of the four kinds are present, and their values. */
  datatype Choice = Choice(hasBlk: bool, blksize: u16, hasTime: bool, secs: u8, hasSize: bool, tsize: u64, hasWin: bool, window: u16)

  function WithBlockSize(c: Choice): seq<OptionValue> {
    AddIf([], c.hasBlk, BlockSize(c.blksize))
  }

  function WithTimeout(c: Choice): seq<OptionValue> {
    AddIf(WithBlockSize(c), c.hasTime, Timeout(c.secs))
  }

  function WithSize(c: Choice): seq<OptionValue> {
    AddIf(WithTimeout(c), c.hasSize, TransferSize(c.tsize))
  }

  /** The chosen options in the order both programs add them. */
  function Listed(c: Choice): seq<OptionValue> {
    AddIf(WithSize(c), c.hasWin, WindowSize(c.window))
  }

  ghost predicate Lacks(items: seq<OptionValue>, name: bytes) {
    forall x :: x in items ==> Name(x) != name
  }

  /** Adding an option of a new kind. */
  lemma Added(items: seq<OptionValue>, present: bool, o: OptionValue)
    requires Distinct(items) && Lacks(items, Name(o))
    ensures Distinct(AddIf(items, present, o))
    ensures forall x :: x in AddIf(items, present, o) <==> x in items || (present && x == o)
    ensures Inserted(items, o) == items + [o]
  {
    InsertedNew(items, o);
  }

  lemma StillLacks(items: seq<OptionValue>, present: bool, o: OptionValue, name: bytes)
    requires Lacks(items, name) && name != Name(o)
    ensures Lacks(AddIf(items, present, o), name)
  {
  }

  lemma AfterBlockSize(c: Choice)
    ensures Distinct(WithBlockSize(c))
    ensures Lacks(WithBlockSize(c), TIMEOUT) && Lacks(WithBlockSize(c), TSIZE) && Lacks(WithBlockSize(c), WINDOWSIZE)
  {
    NamesDiffer();
  }

  lemma AfterTimeout(c: Choice)
    ensures Distinct(WithTimeout(c)) && Lacks(WithTimeout(c), TSIZE) && Lacks(WithTimeout(c), WINDOWSIZE)
  {
    NamesDiffer();
    AfterBlockSize(c);
    Added(WithBlockSize(c), c.hasTime, Timeout(c.secs));
    StillLacks(WithBlockSize(c), c.hasTime, Timeout(c.secs), TSIZE);
    StillLacks(WithBlockSize(c), c.hasTime, Timeout(c.secs), WINDOWSIZE);
  }

  lemma AfterSize(c: Choice)
    ensures Distinct(WithSize(c)) && Lacks(WithSize(c), WINDOWSIZE)
  {
    NamesDiffer();
    AfterTimeout(c);
    Added(WithTimeout(c), c.hasSize, TransferSize(c.tsize));
    StillLacks(WithTimeout(c), c.hasSize, TransferSize(c.tsize), WINDOWSIZE);
  }

  /** Each option is of a kind that is not there yet. */
  lemma ListedInOrder(c: Choice)
    ensures Distinct(WithBlockSize(c)) && Lacks(WithBlockSize(c), Name(Timeout(c.secs)))
    ensures Distinct(WithTimeout(c)) && Lacks(WithTimeout(c), Name(TransferSize(c.tsize)))
    ensures Distinct(WithSize(c)) && Lacks(WithSize(c), Name(WindowSize(c.window)))
    ensures Distinct(Listed(c))
  {
    AfterBlockSize(c);
    AfterTimeout(c);
    AfterSize(c);
    Added(WithSize(c), c.hasWin, WindowSize(c.window));
  }

  lemma ListedMeaning(c: Choice)
    ensures Distinct(Listed(c))
    ensures forall x :: x in Listed(c) <==>
              || (c.hasBlk && x == BlockSize(c.blksize))
              || (c.hasTime && x == Timeout(c.secs))
              || (c.hasSize && x == TransferSize(c.tsize))
              || (c.hasWin && x == WindowSize(c.window))
  {
    ListedInOrder(c);
  }

  function Rank(o: OptionValue): nat {
    match o
    case BlockSize(_) => 0
    case Timeout(_) => 1
    case TransferSize(_) => 2
    case WindowSize(_) => 3
  }

  /** Block size, timeout, transfer size, window size. */
  ghost predicate InFixedOrder(items: seq<OptionValue>) {
    forall i, j :: 0 <= i < j < |items| ==> Rank(items[i]) < Rank(items[j])
  }

  lemma AddedLast(items: seq<OptionValue>, present: bool, o: OptionValue)
    requires InFixedOrder(items) && forall x :: x in items ==> Rank(x) < Rank(o)
    ensures InFixedOrder(AddIf(items, present, o))
    ensures forall x :: x in AddIf(items, present, o) ==> Rank(x) <= Rank(o)
  {
  }

  lemma ListedOrder(c: Choice)
    ensures InFixedOrder(Listed(c))
  {
    AddedLast([], c.hasBlk, BlockSize(c.blksize));
    AddedLast(WithBlockSize(c), c.hasTime, Timeout(c.secs));
    AddedLast(WithTimeout(c), c.hasSize, TransferSize(c.tsize));
    AddedLast(WithSize(c), c.hasWin, WindowSize(c.window));
  }

  lemma ListedAccessors(c: Choice)
    ensures BlockSizeOf(Listed(c)) == if c.hasBlk then Some(c.blksize) else None
    ensures TimeoutOf(Listed(c)) == if c.hasTime then Some(c.secs) else None
    ensures WindowSizeOf(Listed(c)) == if c.hasWin then Some(c.window) else None
    ensures TransferSizeOf(Listed(c)) == if c.hasSize then Some(c.tsize) else None
  {
    ListedMeaning(c);
    MeaningGivesAccessors(c, Listed(c));
  }

  lemma MeaningGivesAccessors(c: Choice, items: seq<OptionValue>)
    requires Distinct(items)
    requires forall v: u16 :: BlockSize(v) in items <==> c.hasBlk && v == c.blksize
    requires forall v: u8 :: Timeout(v) in items <==> c.hasTime && v == c.secs
    requires forall v: u64 :: TransferSize(v) in items <==> c.hasSize && v == c.tsize
    requires forall v: u16 :: WindowSize(v) in items <==> c.hasWin && v == c.window
    ensures BlockSizeOf(items) == if c.hasBlk then Some(c.blksize) else None
    ensures TimeoutOf(items) == if c.hasTime then Some(c.secs) else None
    ensures WindowSizeOf(items) == if c.hasWin then Some(c.window) else None
    ensures TransferSizeOf(items) == if c.hasSize then Some(c.tsize) else None
  {
    AccessorsMeaning(items);
    KeptBlockSize(items, c.hasBlk, c.blksize);
    KeptWindowSize(items, c.hasWin, c.window);
    assert c.hasTime ==> Timeout(c.secs) in items;
    assert c.hasSize ==> TransferSize(c.tsize) in items;
  }

  /** Inserts an option whose kind is not there yet. */
  method InsertIf(options: OptionSet, present: bool, o: OptionValue)
    requires Distinct(options.items) && Lacks(options.items, Name(o))
    modifies options
    ensures options.items == AddIf(old(options.items), present, o)
  {
    Added(options.items, present, o);
    if present {
      options.Insert(o);
    }
  }

  // ---------- client request ----------

  function Asked(opts: ClientOptions, putSize: Option<u64>): Choice {
    Choice(opts.blksize.Some?, if opts.blksize.Some? then opts.blksize.value else 0,
           opts.timeoutSecs.Some?, if opts.timeoutSecs.Some? then opts.timeoutSecs.value else 0,
           opts.requestTsize, if putSize.Some? then putSize.value else 0,
           opts.windowsize.Some?, if opts.windowsize.Some? then opts.windowsize.value else 0)
  }

  function RequestOptions(opts: ClientOptions, putSize: Option<u64>): seq<OptionValue> {
    Listed(Asked(opts, putSize))
  }

  /** A request carries exactly the configured options, in fixed order; a read asks for the size by
      sending 0, a write announces its own. */
  lemma RequestMeaning(opts: ClientOptions, putSize: Option<u64>)
    ensures var o := RequestOptions(opts, putSize);
            && (forall v: u16 :: BlockSize(v) in o <==> opts.blksize == Some(v))
            && (forall v: u8 :: Timeout(v) in o <==> opts.timeoutSecs == Some(v))
            && (forall v: u64 :: TransferSize(v) in o <==> opts.requestTsize && v == if putSize.Some? then putSize.value else 0)
            && (forall v: u16 :: WindowSize(v) in o <==> opts.windowsize == Some(v))
            && InFixedOrder(o)
  {
    ListedMeaning(Asked(opts, putSize));
    ListedOrder(Asked(opts, putSize));
  }

  method BuildRequestOptions(opts: ClientOptions, putSize: Option<u64>) returns (options: seq<OptionValue>)
    ensures options == RequestOptions(opts, putSize)
  {
    var c := Asked(opts, putSize);
    ListedInOrder(c);
    var request := new OptionSet();
    InsertIf(request, opts.blksize.Some?, BlockSize(c.blksize));
    InsertIf(request, opts.timeoutSecs.Some?, Timeout(c.secs));
    InsertIf(request, opts.requestTsize, TransferSize(c.tsize));
    InsertIf(request, opts.windowsize.Some?, WindowSize(c.window));
    options := request.items;
  }

  // ---------- server grant ----------

  /** A block size is clamped between 8 and the configured maximum; with nothing between, the
      code panics. */
  ghost predicate CanGrant(cfg: ServerConfig, requested: seq<OptionValue>) {
    BlockSizeOf(requested).Some? ==> cfg.maxBlockSize >= MIN_BLOCK_SIZE
  }

  function Chosen(cfg: ServerConfig, requested: seq<OptionValue>, fileSize: Option<u64>): Choice
    requires CanGrant(cfg, requested)
  {
    var b, t, s, w := BlockSizeOf(requested), TimeoutOf(requested), TransferSizeOf(requested), WindowSizeOf(requested);
    Choice(b.Some?, if b.Some? then Clamp(b.value, MIN_BLOCK_SIZE, cfg.maxBlockSize) else DEFAULT_BLOCK_SIZE,
           t.Some?, if t.Some? then Max(t.value, 1) else DEFAULT_TIMEOUT_SECS,
           s.Some?, if fileSize.Some? then fileSize.value else if s.Some? then s.value else 0,
           w.Some? && cfg.allowWindowsize,
           if w.Some? && cfg.allowWindowsize then Max(w.value, 1) else DEFAULT_WINDOW_SIZE)
  }

  function Granted(cfg: ServerConfig, requested: seq<OptionValue>, fileSize: Option<u64>): Grant
    requires CanGrant(cfg, requested)
  {
    var c := Chosen(cfg, requested, fileSize);
    Grant(Listed(c), Negotiated(c.blksize, c.secs, c.window))
  }

  method Negotiate(cfg: ServerConfig, requested: seq<OptionValue>, fileSize: Option<u64>)
    returns (oack: seq<OptionValue>, neg: Negotiated)
    requires CanGrant(cfg, requested)
    ensures Grant(oack, neg) == Granted(cfg, requested, fileSize)
  {
    ghost var c := Chosen(cfg, requested, fileSize);
    ListedInOrder(c);
    var out := new OptionSet();
    neg := DEFAULTS;
    var b := BlockSizeOf(requested);
    if b.Some? {
      neg := neg.(blksize := Clamp(b.value, MIN_BLOCK_SIZE, cfg.maxBlockSize));
    }
    InsertIf(out, b.Some?, BlockSize(neg.blksize));
    assert out.items == WithBlockSize(c);
    var t := TimeoutOf(requested);
    var secs: u8 := DEFAULT_TIMEOUT_SECS;
    if t.Some? {
      secs := Max(t.value, 1);
      neg := neg.(timeout := secs);
    }
    InsertIf(out, t.Some?, Timeout(secs));
    assert out.items == WithTimeout(c);
    var s := TransferSizeOf(requested);
    var size: u64 := 0;
    if fileSize.Some? {
      size := fileSize.value;
    } else if s.Some? {
      size := s.value;
    }
    InsertIf(out, s.Some?, TransferSize(size));
    assert out.items == WithSize(c);
    var w := WindowSizeOf(requested);
    var useWindow := w.Some? && cfg.allowWindowsize;
    if useWindow {
      neg := neg.(windowsize := Max(w.value, 1));
    }
    InsertIf(out, useWindow, WindowSize(neg.windowsize));
    oack := out.items;
  }

  // ---------- client acceptance ----------

  function MergeOack(initial: Negotiated, oack: seq<OptionValue>): Negotiated {
    var b, t, w := BlockSizeOf(oack), TimeoutOf(oack), WindowSizeOf(oack);
    Negotiated(
      if b.Some? then b.value else initial.blksize,
      if t.Some? then t.value else initial.timeout,
      if w.Some? then w.value else initial.windowsize)
  }

  /** Each acknowledged option replaces its parameter; the others stay. */
  lemma MergeMeaning(initial: Negotiated, oack: seq<OptionValue>)
    requires Distinct(oack)
    ensures var neg := MergeOack(initial, oack);
            && (forall v: u16 :: BlockSize(v) in oack ==> neg.blksize == v)
            && ((forall v: u16 :: BlockSize(v) !in oack) ==> neg.blksize == initial.blksize)
            && (forall v: u8 :: Timeout(v) in oack ==> neg.timeout == v)
            && ((forall v: u8 :: Timeout(v) !in oack) ==> neg.timeout == initial.timeout)
            && (forall v: u16 :: WindowSize(v) in oack ==> neg.windowsize == v)
            && ((forall v: u16 :: WindowSize(v) !in oack) ==> neg.windowsize == initial.windowsize)
  {
    AccessorsMeaning(oack);
    assert BlockSizeOf(oack).Some? ==> BlockSize(BlockSizeOf(oack).value) in oack;
    assert TimeoutOf(oack).Some? ==> Timeout(TimeoutOf(oack).value) in oack;
    assert WindowSizeOf(oack).Some? ==> WindowSize(WindowSizeOf(oack).value) in oack;
  }

  // ---------- agreement ----------

  /** Reading the OACK gives exactly the parameters the server uses; with no OACK both sides use
      the defaults. */
  lemma MergeAgrees(cfg: ServerConfig, requested: seq<OptionValue>, fileSize: Option<u64>)
    requires CanGrant(cfg, requested)
    ensures MergeOack(DEFAULTS, Granted(cfg, requested, fileSize).oack) == Granted(cfg, requested, fileSize).neg
    ensures Granted(cfg, requested, fileSize).oack == [] ==> Granted(cfg, requested, fileSize).neg == DEFAULTS
  {
    ListedAccessors(Chosen(cfg, requested, fileSize));
  }

  /** A size is reported exactly when it was asked for: the file's on a read request, the client's
      own on a write request. The timeout is confirmed as asked. */
  lemma GrantEchoes(cfg: ServerConfig, requested: seq<OptionValue>, fileSize: Option<u64>)
    requires CanGrant(cfg, requested) && WellFormedOptions(requested)
    ensures var g := Granted(cfg, requested, fileSize);
            && TransferSizeOf(g.oack) == (if TransferSizeOf(requested).None? then None
                                          else if fileSize.Some? then fileSize else TransferSizeOf(requested))
            && TimeoutOf(g.oack) == TimeoutOf(requested)
            && (g.oack == [] <==> TransferSizeOf(requested).None? && TimeoutOf(requested).None?
                                  && BlockSizeOf(requested).None? && (WindowSizeOf(requested).None? || !cfg.allowWindowsize))
  {
    ListedAccessors(Chosen(cfg, requested, fileSize));
    AccessorsMeaning(requested);
    assert TimeoutOf(requested).Some? ==> Timeout(TimeoutOf(requested).value) in requested;
  }

  /** Whatever was asked for, sensible or not: the server takes the nearest block size it allows, and
      never less than one second or one block per window. */
  lemma GrantNearest(cfg: ServerConfig, requested: seq<OptionValue>, fileSize: Option<u64>)
    requires CanGrant(cfg, requested) && Distinct(requested)
    ensures var neg := Granted(cfg, requested, fileSize).neg;
            && (forall v: u16 :: BlockSize(v) in requested ==>
                  && 8 <= neg.blksize <= cfg.maxBlockSize
                  && forall size: u16 :: 8 <= size <= cfg.maxBlockSize ==> Distance(v, neg.blksize) <= Distance(v, size))
            && (forall v: u8 :: Timeout(v) in requested ==> neg.timeout == if v == 0 then 1 else v)
            && (forall v: u16 :: WindowSize(v) in requested && cfg.allowWindowsize ==> neg.windowsize == if v == 0 then 1 else v)
            && (!cfg.allowWindowsize ==> neg.windowsize == 1)
  {
    AccessorsMeaning(requested);
  }

  function Distance(a: int, b: int): nat {
    if a < b then b - a else a - b
  }

  /** A server never grants more than was asked, never an option that was not asked, and always
      values that the other side will accept. */
  lemma GrantBounded(cfg: ServerConfig, requested: seq<OptionValue>, fileSize: Option<u64>)
    requires CanGrant(cfg, requested) && WellFormedOptions(requested)
    ensures var g := Granted(cfg, requested, fileSize);
            && WellFormedOptions(g.oack)
            && (forall v :: BlockSize(v) in requested ==> MIN_BLOCK_SIZE <= g.neg.blksize <= v && g.neg.blksize <= cfg.maxBlockSize)
            && (forall v :: WindowSize(v) in requested ==> 1 <= g.neg.windowsize <= v)
            && (forall o :: o in g.oack ==> exists r :: r in requested && Name(r) == Name(o))
            && g.neg.blksize >= MIN_BLOCK_SIZE && g.neg.windowsize >= 1
  {
    ListedMeaning(Chosen(cfg, requested, fileSize));
    AccessorsMeaning(requested);
    var g := Granted(cfg, requested, fileSize);
    forall o | o in g.oack
      ensures InRange(o)
      ensures exists r :: r in requested && Name(r) == Name(o)
    {
      match o
      case BlockSize(_) =>
        assert BlockSize(BlockSizeOf(requested).value) in requested;
      case Timeout(_) =>
        assert Timeout(TimeoutOf(requested).value) in requested;
      case TransferSize(_) =>
        assert TransferSize(TransferSizeOf(requested).value) in requested;
      case WindowSize(_) =>
        assert WindowSize(WindowSizeOf(requested).value) in requested;
    }
  }

  /** What the server hears of a client's wishes. */
  lemma RequestHeard(opts: ClientOptions, filename: bytes, putSize: Option<u64>, kept: seq<OptionValue>)
    requires Text(filename) && kept == Acceptable(RequestOptions(opts, putSize))
    ensures Decode(Encode(Rrq(filename, opts.mode, RequestOptions(opts, putSize)))) == Ok(Rrq(filename, opts.mode, kept))
    ensures Decode(Encode(Wrq(filename, opts.mode, RequestOptions(opts, putSize)))) == Ok(Wrq(filename, opts.mode, kept))
    ensures WellFormedOptions(kept)
  {
    ListedMeaning(Asked(opts, putSize));
    var request := Rrq(filename, opts.mode, RequestOptions(opts, putSize));
    RequestRoundTrip(filename, opts.mode, request.options);
    DecodedIsWellFormed(Encode(request));
  }

  /** What the client hears of a grant. */
  lemma GrantHeard(cfg: ServerConfig, requested: seq<OptionValue>, fileSize: Option<u64>, g: Grant)
    requires CanGrant(cfg, requested) && WellFormedOptions(requested) && g == Granted(cfg, requested, fileSize)
    ensures Decode(Encode(Oack(g.oack))) == Ok(Oack(g.oack))
    ensures MergeOack(DEFAULTS, g.oack) == g.neg
  {
    GrantBounded(cfg, requested, fileSize);
    RoundTripIff(Oack(g.oack));
    MergeAgrees(cfg, requested, fileSize);
  }

  /** Agreement through the wire: whatever the client asks for, in range or not, the parameters it
      reads out of the encoded and decoded OACK are the ones the server took from the encoded and
      decoded request. */
  lemma WireAgreement(cfg: ServerConfig, opts: ClientOptions, filename: bytes, fileSize: Option<u64>, putSize: Option<u64>)
    requires CanGrant(cfg, Acceptable(RequestOptions(opts, putSize))) && Text(filename)
    ensures var request := Decode(Encode(Rrq(filename, opts.mode, RequestOptions(opts, putSize))));
            && request.Ok? && request.value.Rrq? && request.value.mode == opts.mode
            && CanGrant(cfg, request.value.options)
            && var g := Granted(cfg, request.value.options, fileSize);
               var reply := Decode(Encode(Oack(g.oack)));
               && reply == Ok(Oack(g.oack))
               && MergeOack(DEFAULTS, reply.value.options) == g.neg
  {
    var kept := Acceptable(RequestOptions(opts, putSize));
    RequestHeard(opts, filename, putSize, kept);
    GrantHeard(cfg, kept, fileSize, Granted(cfg, kept, fileSize));
  }

  /** What the server should choose for a client's configuration. An option outside its range
      counts as not asked for. */
  ghost predicate Suits(cfg: ServerConfig, opts: ClientOptions, size: u64, c: Choice) {
    && (c.hasBlk <==> opts.blksize.Some? && 8 <= opts.blksize.value <= 65464)
    && c.blksize == (if c.hasBlk then Min(opts.blksize.value, cfg.maxBlockSize) else 512)
    && (c.hasTime <==> opts.timeoutSecs.Some? && opts.timeoutSecs.value > 0)
    && c.secs == (if c.hasTime then opts.timeoutSecs.value else 5)
    && (c.hasSize <==> opts.requestTsize)
    && (c.hasSize ==> c.tsize == size)
    && (c.hasWin <==> opts.windowsize.Some? && opts.windowsize.value > 0 && cfg.allowWindowsize)
    && c.window == (if c.hasWin then opts.windowsize.value else 1)
  }

  /** The file's size on a read; on a write what the client announced, or 0. */
  function SizeToReport(fileSize: Option<u64>, putSize: Option<u64>): u64 {
    if fileSize.Some? then fileSize.value else if putSize.Some? then putSize.value else 0
  }

  lemma ChosenSuits(cfg: ServerConfig, opts: ClientOptions, fileSize: Option<u64>, putSize: Option<u64>, kept: seq<OptionValue>)
    requires kept == Acceptable(RequestOptions(opts, putSize)) && CanGrant(cfg, kept)
    ensures Suits(cfg, opts, SizeToReport(fileSize, putSize), Chosen(cfg, kept, fileSize))
  {
    AcceptableListed(Asked(opts, putSize));
    ListedAccessors(InRangeOnly(Asked(opts, putSize)));
  }

  /** The acknowledged options of a suitable choice. */
  lemma SuitableOack(cfg: ServerConfig, opts: ClientOptions, size: u64, c: Choice, oack: seq<OptionValue>)
    requires Suits(cfg, opts, size, c) && oack == Listed(c)
    ensures forall v: u16 :: BlockSize(v) in oack <==>
              opts.blksize.Some? && 8 <= opts.blksize.value <= 65464 && v == c.blksize
    ensures forall v: u8 :: Timeout(v) in oack <==> opts.timeoutSecs == Some(v) && v > 0
    ensures forall v: u64 :: TransferSize(v) in oack <==> opts.requestTsize && v == size
    ensures forall v: u16 :: WindowSize(v) in oack <==> opts.windowsize == Some(v) && v > 0 && cfg.allowWindowsize
  {
    ListedMeaning(c);
  }

  /** The outcome in terms of what the user configured; acknowledged is exactly what was usable, in
      fixed order. */
  lemma GrantOutcome(cfg: ServerConfig, opts: ClientOptions, fileSize: Option<u64>, putSize: Option<u64>, g: Grant)
    requires CanGrant(cfg, Acceptable(RequestOptions(opts, putSize)))
    requires g == Granted(cfg, Acceptable(RequestOptions(opts, putSize)), fileSize)
    ensures g.neg.blksize == match opts.blksize
              case None => 512
              case Some(v) => if 8 <= v <= 65464 then Min(v, cfg.maxBlockSize) else 512
    ensures g.neg.timeout == match opts.timeoutSecs
              case None => 5
              case Some(v) => if v > 0 then v else 5
    ensures g.neg.windowsize == match opts.windowsize
              case None => 1
              case Some(v) => if v > 0 && cfg.allowWindowsize then v else 1
    ensures forall v: u16 :: BlockSize(v) in g.oack <==>
              opts.blksize.Some? && 8 <= opts.blksize.value <= 65464 && v == g.neg.blksize
    ensures forall v: u8 :: Timeout(v) in g.oack <==> opts.timeoutSecs == Some(v) && v > 0
    ensures forall v: u64 :: TransferSize(v) in g.oack <==> opts.requestTsize && v == SizeToReport(fileSize, putSize)
    ensures forall v: u16 :: WindowSize(v) in g.oack <==> opts.windowsize == Some(v) && v > 0 && cfg.allowWindowsize
    ensures InFixedOrder(g.oack)
  {
    var c := Chosen(cfg, Acceptable(RequestOptions(opts, putSize)), fileSize);
    ChosenSuits(cfg, opts, fileSize, putSize, Acceptable(RequestOptions(opts, putSize)));
    SuitableOack(cfg, opts, SizeToReport(fileSize, putSize), c, g.oack);
    ListedOrder(c);
  }

  function InRangeOnly(c: Choice): Choice {
    c.(hasBlk := c.hasBlk && InRange(BlockSize(c.blksize)), hasTime := c.hasTime && InRange(Timeout(c.secs)),
       hasWin := c.hasWin && InRange(WindowSize(c.window)))
  }

  lemma AcceptableAdded(items: seq<OptionValue>, present: bool, o: OptionValue)
    ensures Acceptable(AddIf(items, present, o)) == AddIf(Acceptable(items), present && InRange(o), o)
  {
    assert (items + [o])[..|items|] == items;
  }

  /** What is left of a client's request once the server's parser has dropped invalid values. */
  lemma AcceptableListed(c: Choice)
    ensures Acceptable(Listed(c)) == Listed(InRangeOnly(c))
  {
    AcceptableAdded([], c.hasBlk, BlockSize(c.blksize));
    AcceptableAdded(WithBlockSize(c), c.hasTime, Timeout(c.secs));
    AcceptableAdded(WithTimeout(c), c.hasSize, TransferSize(c.tsize));
    AcceptableAdded(WithSize(c), c.hasWin, WindowSize(c.window));
  }

  lemma KeptBlockSize(kept: seq<OptionValue>, present: bool, size: u16)
    requires Distinct(kept)
    requires forall v: u16 :: BlockSize(v) in kept <==> present && v == size
    ensures BlockSizeOf(kept) == if present then Some(size) else None
  {
    AccessorsMeaning(kept);
    assert BlockSizeOf(kept).Some? ==> BlockSize(BlockSizeOf(kept).value) in kept;
  }

  lemma KeptWindowSize(kept: seq<OptionValue>, present: bool, size: u16)
    requires Distinct(kept)
    requires forall v: u16 :: WindowSize(v) in kept <==> present && v == size
    ensures WindowSizeOf(kept) == if present then Some(size) else None
  {
    AccessorsMeaning(kept);
    assert WindowSizeOf(kept).Some? ==> WindowSize(WindowSizeOf(kept).value) in kept;
  }
}

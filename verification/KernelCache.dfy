/** The kernel build's cache across runs. Runs are serialized by a lock, any of them may stop at any
    step, and what is in the cache may be damaged between one run and the next. */
module KernelCache {
  import opened Bytes
  import opened KernelConfig
  import opened Wrappers

  type Image = seq<byte>

  type Line = s: string | '\n' !in s witness ""

  type Lines = seq<Line>

  /** SHA-256, taken to be injective. */
  datatype Digest = OfImage(image: Image) | OfText(text: Lines)

  datatype SumsFile = Recorded(image: Digest, config: Digest, symbols: Digest) | OtherText

  /** A cache entry's directory: which of its four files exist, and what they hold. */
  datatype Files = Files(
    image: Option<Image>, config: Option<Lines>, symbols: Option<Lines>, sums: Option<SumsFile>)

  /** What the fingerprint is taken of: the resolved directives in order, and everything else that
      can change the output bytes. The fingerprint is a digest too, so it stands for its input. */
  datatype Request = Request(order: seq<string>, directives: map<string, Directive>, toolchain: string)

  /** What one completed compilation gave. */
  datatype Product = Product(request: Request, image: Image, config: Lines, symbols: Lines)

  datatype Outcome = Hit | ConfigVerified | Built | Failed | Crashed

  /** How far removing an entry's directory gets: all the way, or up to a crash that leaves some of
      its files. */
  datatype Removal = Complete | Cut(image: bool, config: bool, symbols: bool, sums: bool)

  /** One run: the cache it found, how it ended, what the output tree held then, the cache it left. */
  datatype Record = Record(
    request: Request, configOnly: bool, found: map<Request, Files>, outcome: Outcome,
    image: Option<Image>, config: Option<Lines>, left: map<Request, Files>)

  predicate Resolved(request: Request) {
    forall k :: k in request.order ==>
      k in request.directives && IsKey(k) && OneLine(request.directives[k])
  }

  predicate Satisfied(request: Request, config: Lines, symbols: Lines)
    requires Resolved(request)
  {
    forall k :: k in request.order ==> k in symbols && Holds(config, k, request.directives[k])
  }

  function SumsOf(image: Image, config: Lines, symbols: Lines): SumsFile {
    Recorded(OfImage(image), OfText(config), OfText(symbols))
  }

  /** The entry is complete, matches its own checksums, and does what the request asks. */
  predicate Servable(f: Files, request: Request)
    requires Resolved(request)
  {
    && f.image.Some? && f.config.Some? && f.symbols.Some? && f.sums.Some?
    && f.sums.value == SumsOf(f.image.value, f.config.value, f.symbols.value)
    && Satisfied(request, f.config.value, f.symbols.value)
  }

  /** Some of the files are gone, the others are as they were. */
  predicate Remnant(was: Files, now: Files) {
    && (now.image.None? || now.image == was.image)
    && (now.config.None? || now.config == was.config)
    && (now.symbols.None? || now.symbols == was.symbols)
    && (now.sums.None? || now.sums == was.sums)
  }

  /** The directory staged for a product. */
  function EntryOf(p: Product): Files {
    Files(Some(p.image), Some(p.config), Some(p.symbols), Some(SumsOf(p.image, p.config, p.symbols)))
  }

  predicate HasSums(f: Files) {
    f.sums.Some? && f.sums.value.Recorded?
  }

  /** The checksum file of this entry was written for a product of the request. */
  ghost predicate TracedEntry(f: Files, request: Request, products: set<Product>) {
    exists p :: p in products && p.request == request && f.sums == EntryOf(p).sums
  }

  /** Every recorded checksum file was written for a product of the request it is filed under. */
  ghost predicate Traced(entries: map<Request, Files>, products: set<Product>) {
    forall r :: r in entries && HasSums(entries[r]) ==> TracedEntry(entries[r], r, products)
  }

  predicate AllSatisfied(products: set<Product>) {
    forall p :: p in products ==> Resolved(p.request) && Satisfied(p.request, p.config, p.symbols)
  }

  /** Any damage short of writing a checksum file that was not there. */
  predicate Unforged(was: map<Request, Files>, now: map<Request, Files>) {
    forall r :: r in now && HasSums(now[r]) ==>
      r in was && was[r].sums == now[r].sums
  }

  lemma DamageKeepsTrace(was: map<Request, Files>, now: map<Request, Files>, products: set<Product>)
    requires Traced(was, products) && Unforged(was, now)
    ensures Traced(now, products)
  {
    forall r | r in now && HasSums(now[r])
      ensures TracedEntry(now[r], r, products)
    {
      assert TracedEntry(was[r], r, products);
    }
  }

  lemma PublishingKeepsTrace(entries: map<Request, Files>, products: set<Product>, p: Product)
    requires Traced(entries, products)
    ensures Traced(entries, products + {p})
    ensures Traced(entries[p.request := EntryOf(p)], products + {p})
  {
    assert p in products + {p};
    assert TracedEntry(EntryOf(p), p.request, products + {p});
    forall r | r in entries && HasSums(entries[r])
      ensures TracedEntry(entries[r], r, products + {p})
    {
      var q :| q in products && q.request == r && entries[r].sums == EntryOf(q).sums;
      assert q in products + {p};
    }
  }

  /** What an intact entry serves. */
  function ServedBy(f: Files, request: Request): Product
    requires Resolved(request) && Servable(f, request)
  {
    Product(request, f.image.value, f.config.value, f.symbols.value)
  }

  /** What an intact entry serves is one product of that very request, image, config and symbol list
      together, if and only if its checksum file was written for some product of the request: digests
      that agree leave no room for anything else. */
  lemma ServableIsProduct(f: Files, products: set<Product>, request: Request)
    requires Resolved(request) && Servable(f, request)
    ensures ServedBy(f, request) in products <==> TracedEntry(f, request, products)
  {
    if TracedEntry(f, request, products) {
      var p :| p in products && p.request == request && f.sums == EntryOf(p).sums;
      assert p == ServedBy(f, request);
    }
  }

  /** What is left of an entry whose removal was cut short. */
  function Remains(f: Files, cut: Removal): Files
    requires cut.Cut?
  {
    Files(if cut.image then f.image else None, if cut.config then f.config else None,
          if cut.symbols then f.symbols else None, if cut.sums then f.sums else None)
  }

  /** The run did right by the cache it found, whatever was in it: a hit found an entry that is
      complete, matches its own checksums and does what the request asks, and handed out that entry's
      image and configuration; and such an entry is served unless the run stops. */
  predicate Faithful(r: Record) {
    && Resolved(r.request)
    && (r.outcome == Hit ==>
        && !r.configOnly && r.request in r.found && Servable(r.found[r.request], r.request)
        && r.image == r.found[r.request].image && r.config == r.found[r.request].config)
    && (!r.configOnly && r.request in r.found && Servable(r.found[r.request], r.request) ==>
        (r.outcome == Hit || r.outcome == Crashed) && r.left == r.found)
  }

  class KernelBuilder {
    var entries: map<Request, Files>
    var leftovers: seq<Files>         // staging directories nothing reads any more
    var outImage: Option<Image>       // linux-kernel/arch/x86/boot/bzImage
    var outConfig: Option<Lines>      // linux-kernel/.config
    var outSymbols: Option<Lines>     // linux-kernel/.kconfig-symbols
    ghost var products: set<Product>  // what was ever staged completely
    ghost var log: seq<Record>        // one record a run

    constructor ()
      ensures entries == map[] && leftovers == [] && products == {} && log == []
    {
      entries, leftovers, products, log := map[], [], {}, [];
      outImage, outConfig, outSymbols := None, None, None;
    }

    /** What the output tree holds. */
    function Output(request: Request): Product
      requires outImage.Some? && outConfig.Some? && outSymbols.Some?
      reads this
    {
      Product(request, outImage.value, outConfig.value, outSymbols.value)
    }

    /** On any cache at all: a hit hands out what an intact entry holds, which is a product of that
        very request exactly when the entry's checksum file was written for one, and there is a hit
        whenever there is such an entry; a configuration-only run leaves the cache alone and compiles
        nothing; whatever happens, an entry is what it was, a remnant of it, or complete and new; a
        finished build is in the cache afterwards if and only if the entry's directory was not in the
        way: absent, or holding an image to be rejected along with it; and no run writes a checksum
        file for anything but a product. */
    method Run(request: Request, configOnly: bool, removal: Removal) returns (r: Outcome)
      requires Resolved(request)
      modifies this
      ensures old(products) <= products && (AllSatisfied(old(products)) ==> AllSatisfied(products))
      ensures Traced(old(entries), old(products)) ==> Traced(entries, products)
      ensures log == old(log) + [Record(request, configOnly, old(entries), r, outImage, outConfig, entries)]
      ensures Faithful(log[|old(log)|])
      ensures r == Hit ==>
        (ServedBy(old(entries)[request], request) in products
         <==> TracedEntry(old(entries)[request], request, products))
      ensures r == Hit || configOnly ==>
        entries == old(entries) && products == old(products) && leftovers == old(leftovers)
      ensures configOnly ==> r != Hit && r != Built
      ensures r == Built || r == ConfigVerified ==>
        outConfig.Some? && outSymbols.Some? && Satisfied(request, outConfig.value, outSymbols.value)
      ensures r == Built ==> outImage.Some? && Output(request) in products
      ensures entries - {request} == old(entries) - {request}
      ensures request in entries ==>
        || (request in old(entries) && Remnant(old(entries)[request], entries[request]))
        || exists p :: p in products && p.request == request && entries[request] == EntryOf(p)
      ensures request in old(entries) && old(entries)[request].image.None? ==> r != Hit && entries == old(entries)
      ensures r == Built ==>
        if request !in old(entries) || old(entries)[request].image.Some?
        then request in entries && entries[request] == EntryOf(Output(request))
        else entries == old(entries) && !Servable(entries[request], request)
      ensures
        !configOnly && removal.Cut? && request in old(entries) && old(entries)[request].image.Some?
        && !Servable(old(entries)[request], request) ==>
          r == Crashed && entries == old(entries)[request := Remains(old(entries)[request], removal)]
    {
      hide Traced, TracedEntry, AllSatisfied, Unforged, Satisfied;
      ghost var found := entries;
      if !configOnly && request in entries && entries[request].image.Some? {
        var intact := CheckEntry(request);
        if intact {
          ServableIsProduct(entries[request], products, request);
          var crash: bool := *;
          outImage := entries[request].image;
          if crash {
            r := Crashed;
          } else {
            outConfig := entries[request].config;
            r := Hit;
          }
        } else {
          RemoveEntry(request, removal);
          if Traced(found, products) {
            DamageKeepsTrace(found, entries, products);
          }
          if removal.Cut? {
            r := Crashed;
          } else {
            r := Build(request, configOnly);
          }
        }
      } else {
        r := Build(request, configOnly);
      }
      log := log + [Record(request, configOnly, found, r, outImage, outConfig, entries)];
    }

    /** `sha256sum` of the three files against the recorded text, then the directives. */
    method CheckEntry(request: Request) returns (ok: bool)
      requires Resolved(request) && request in entries && entries[request].image.Some?
      ensures ok <==> Servable(entries[request], request)
    {
      var f := entries[request];
      if f.config.None? || f.symbols.None? || f.sums.None? {
        return false;
      }
      if f.sums.value != SumsOf(f.image.value, f.config.value, f.symbols.value) {
        return false;
      }
      ok := VerifyConfig(f.config.value, f.symbols.value, request.order, request.directives);
    }

    /** `rm -rf` of the entry, which a crash can leave half done. */
    method RemoveEntry(request: Request, removal: Removal)
      requires request in entries
      modifies this`entries
      ensures entries == if removal.Complete? then old(entries) - {request}
                         else old(entries)[request := Remains(old(entries)[request], removal)]
      ensures Unforged(old(entries), entries)
    {
      if removal.Complete? {
        entries := entries - {request};
      } else {
        entries := entries[request := Remains(entries[request], removal)];
      }
    }

    /** Download, configure and verify; then, unless that was all, compile, verify again and publish. */
    method Build(request: Request, configOnly: bool) returns (r: Outcome)
      requires Resolved(request)
      modifies this`entries, this`leftovers, this`products, this`outImage, this`outConfig, this`outSymbols
      ensures old(products) <= products && (AllSatisfied(old(products)) ==> AllSatisfied(products))
      ensures Traced(old(entries), old(products)) ==> Traced(entries, products)
      ensures r != Hit && (configOnly ==> r != Built)
      ensures r == Built || r == ConfigVerified ==>
        outConfig.Some? && outSymbols.Some? && Satisfied(request, outConfig.value, outSymbols.value)
      ensures r == Built ==> outImage.Some? && Output(request) in products
      ensures configOnly ==> entries == old(entries) && products == old(products) && leftovers == old(leftovers)
      ensures entries == old(entries) ||
        (request !in old(entries)
         && exists p :: p in products && p.request == request && entries == old(entries)[request := EntryOf(p)])
      ensures r == Built && request !in old(entries) ==> entries == old(entries)[request := EntryOf(Output(request))]
    {
      outImage, outConfig, outSymbols := None, None, None;
      var fails: bool := *;
      if fails {
        return Failed;
      }
      var ok := Configure(request);
      if !ok {
        return Failed;
      }
      if configOnly {
        return ConfigVerified;
      }
      var image: Image := *;
      fails := *;
      if fails {
        return Failed;
      }
      outImage := Some(image);
      var left: Lines := *;  // the build may have rewritten its configuration
      outConfig := Some(left);
      ok := VerifyConfig(outConfig.value, outSymbols.value, request.order, request.directives);
      if !ok {
        return Failed;
      }
      r := Publish(request);
    }

    /** Apply every directive to some base configuration, let `olddefconfig` turn the result into
        anything at all, and check what came out. */
    method Configure(request: Request) returns (ok: bool)
      requires Resolved(request)
      modifies this`outConfig, this`outSymbols
      ensures outConfig.Some? && outSymbols.Some?
      ensures ok <==> Satisfied(request, outConfig.value, outSymbols.value)
    {
      var symbols: Lines := *;
      var base: Lines := *;
      var applied := ApplyDirectives(base, request.order, request.directives);
      var final: Lines := *;
      outConfig, outSymbols := Some(final), Some(symbols);
      ok := VerifyConfig(final, symbols, request.order, request.directives);
    }

    /** Fill a staging directory file by file and rename it. Renaming onto an existing directory moves
        the stage inside it, where nothing looks. */
    method Publish(request: Request) returns (r: Outcome)
      requires Resolved(request)
      requires outImage.Some? && outConfig.Some? && outSymbols.Some?
      requires Satisfied(request, outConfig.value, outSymbols.value)
      modifies this`entries, this`leftovers, this`products
      ensures old(products) <= products && (AllSatisfied(old(products)) ==> AllSatisfied(products))
      ensures Traced(old(entries), old(products)) ==> Traced(entries, products)
      ensures r == Built || r == Crashed
      ensures r == Built ==> Output(request) in products
      ensures entries == old(entries) ||
        (request !in old(entries) && Output(request) in products
         && entries == old(entries)[request := EntryOf(Output(request))])
      ensures r == Built && request !in old(entries) ==> entries == old(entries)[request := EntryOf(Output(request))]
    {
      var stage := Files(None, None, None, None);
      var crashAt: nat := *;
      if crashAt > 0 { stage := stage.(image := outImage); }
      if crashAt > 1 { stage := stage.(config := outConfig); }
      if crashAt > 2 { stage := stage.(symbols := outSymbols); }
      if crashAt <= 3 {
        leftovers := leftovers + [stage];
        return Crashed;
      }
      stage := stage.(sums := Some(SumsOf(stage.image.value, stage.config.value, stage.symbols.value)));
      if Traced(entries, products) {
        PublishingKeepsTrace(entries, products, Output(request));
      }
      products := products + {Output(request)};
      if crashAt == 4 || request in entries {
        leftovers := leftovers + [stage];
      } else {
        entries := entries[request := stage];
      }
      r := if crashAt <= 5 then Crashed else Built;
    }
  }

  /** One run of a session: what the cache was turned into before it, and what it is asked for. */
  datatype Call = Call(damaged: map<Request, Files>, request: Request, configOnly: bool, removal: Removal)

  /** The history has one record a call, each faithful to the cache the call's damage had made. */
  predicate Answers(history: seq<Record>, calls: seq<Call>) {
    && |history| == |calls|
    && forall i :: 0 <= i < |calls| ==>
         && history[i].request == calls[i].request && history[i].configOnly == calls[i].configOnly
         && history[i].found == calls[i].damaged && Faithful(history[i])
  }

  /** The cache run number `i` left behind, or the one the session began with. */
  function LeftBefore(start: map<Request, Files>, history: seq<Record>, i: nat): map<Request, Files>
    requires i <= |history|
  {
    if i == 0 then start else history[i - 1].left
  }

  /** None of the damage wrote a checksum file that was not there. */
  predicate NothingForged(start: map<Request, Files>, history: seq<Record>) {
    forall i :: 0 <= i < |history| ==> Unforged(LeftBefore(start, history, i), history[i].found)
  }

  /** The hit handed out a product of its request, compiled under a configuration in which all of the
      request's directives held. */
  ghost predicate ServesProduct(r: Record, products: set<Product>) {
    exists p :: p in products && Serves(r, p)
  }

  predicate Serves(r: Record, p: Product) {
    && p.request == r.request && r.image == Some(p.image) && r.config == Some(p.config)
    && Resolved(p.request) && Satisfied(p.request, p.config, p.symbols)
  }

  ghost predicate ServesProducts(history: seq<Record>, products: set<Product>) {
    forall i :: 0 <= i < |history| && history[i].outcome == Hit ==> ServesProduct(history[i], products)
  }

  lemma HitServesProduct(r: Record, products: set<Product>)
    requires Faithful(r) && r.outcome == Hit && AllSatisfied(products)
    requires Traced(r.found, products)
    ensures ServesProduct(r, products)
  {
    var f := r.found[r.request];
    assert HasSums(f) && TracedEntry(f, r.request, products);
    ServableIsProduct(f, products, r.request);
    assert ServedBy(f, r.request) in products;
    assert Serves(r, ServedBy(f, r.request));
  }

  lemma ServesMore(r: Record, products: set<Product>, more: set<Product>)
    requires ServesProduct(r, products) && products <= more
    ensures ServesProduct(r, more)
  {
    var p :| p in products && Serves(r, p);
    assert p in more;
  }

  /** What a session that began with this cache and these products has kept. */
  ghost predicate Sound(start: map<Request, Files>, first: set<Product>, history: seq<Record>,
                        entries: map<Request, Files>, products: set<Product>) {
    Traced(start, first) && AllSatisfied(first) && NothingForged(start, history) ==>
      Traced(entries, products) && AllSatisfied(products) && ServesProducts(history, products)
  }

  lemma LastForged(start: map<Request, Files>, history: seq<Record>, r: Record)
    requires NothingForged(start, history + [r])
    ensures NothingForged(start, history) && Unforged(LeftBefore(start, history, |history|), r.found)
  {
    hide Unforged;
    var more := history + [r];
    assert more[|history|] == r;
    assert forall i :: 0 <= i < |history| ==>
      more[i] == history[i] && LeftBefore(start, more, i) == LeftBefore(start, history, i);
  }

  lemma StaysSound(start: map<Request, Files>, first: set<Product>, history: seq<Record>,
                   r: Record, products: set<Product>, more: set<Product>)
    requires Sound(start, first, history, LeftBefore(start, history, |history|), products)
    requires Faithful(r) && products <= more
    requires AllSatisfied(products) ==> AllSatisfied(more)
    requires Traced(r.found, products) ==> Traced(r.left, more)
    ensures Sound(start, first, history + [r], r.left, more)
  {
    hide Traced, AllSatisfied, Unforged, NothingForged, ServesProduct, Faithful, LeftBefore;
    if Traced(start, first) && AllSatisfied(first) && NothingForged(start, history + [r]) {
      LastForged(start, history, r);
      DamageKeepsTrace(LeftBefore(start, history, |history|), r.found, products);
      if r.outcome == Hit {
        HitServesProduct(r, products);
        ServesMore(r, products, more);
      }
      forall i | 0 <= i < |history| && history[i].outcome == Hit
        ensures ServesProduct(history[i], more)
      {
        ServesMore(history[i], products, more);
      }
      assert forall i :: 0 <= i < |history| ==> (history + [r])[i] == history[i];
    }
  }

  method RunOn(builder: KernelBuilder, call: Call) returns (ghost r: Record)
    requires Resolved(call.request)
    modifies builder
    ensures builder.log == old(builder.log) + [r] && Faithful(r)
    ensures r.request == call.request && r.configOnly == call.configOnly
    ensures r.found == call.damaged && r.left == builder.entries
    ensures old(builder.products) <= builder.products
    ensures AllSatisfied(old(builder.products)) ==> AllSatisfied(builder.products)
    ensures Traced(call.damaged, old(builder.products)) ==> Traced(builder.entries, builder.products)
  {
    hide Traced, AllSatisfied, Faithful, Servable, Satisfied, TracedEntry, Remnant;
    builder.entries := call.damaged;
    var outcome := builder.Run(call.request, call.configOnly, call.removal);
    r := builder.log[|builder.log| - 1];
  }

  /** Any number of runs of any requests, stopping anywhere, with the cache turned into anything at all
      before each of them: every hit hands out an entry that was intact. As long as no damage wrote a
      checksum file that was not there, what it hands out was compiled for that very request, under a
      configuration in which all of its directives held. */
  method Sessions(builder: KernelBuilder, calls: seq<Call>) returns (ghost history: seq<Record>)
    requires forall i :: 0 <= i < |calls| ==> Resolved(calls[i].request)
    modifies builder
    ensures builder.log == old(builder.log) + history && Answers(history, calls)
    ensures
      (Traced(old(builder.entries), old(builder.products)) && AllSatisfied(old(builder.products))
       && NothingForged(old(builder.entries), history)) ==>
        ServesProducts(history, builder.products)
  {
    hide Traced, AllSatisfied, Unforged, Faithful, ServesProduct, NothingForged;
    history := [];
    ghost var start, first := builder.entries, builder.products;
    var i := 0;
    while i < |calls|
      invariant 0 <= i <= |calls| && builder.log == old(builder.log) + history
      invariant Answers(history, calls[..i])
      invariant builder.entries == LeftBefore(start, history, i)
      invariant Sound(start, first, history, builder.entries, builder.products)
    {
      ghost var kept := builder.products;
      ghost var r := RunOn(builder, calls[i]);
      StaysSound(start, first, history, r, kept, builder.products);
      history := history + [r];
      i := i + 1;
    }
    assert calls[..i] == calls;
  }

  /** A cache hit is not guaranteed: an entry directory without an image is never repaired. However
      many builds of it complete, the next run still finds nothing to serve. */
  method StuckEntry(builder: KernelBuilder, request: Request, runs: nat) returns (outcomes: seq<Outcome>)
    requires Resolved(request)
    requires request in builder.entries && builder.entries[request].image.None?
    modifies builder
    ensures |outcomes| == runs && Hit !in outcomes
    ensures builder.entries == old(builder.entries)
  {
    outcomes := [];
    while |outcomes| < runs
      invariant |outcomes| <= runs && Hit !in outcomes
      invariant builder.entries == old(builder.entries)
    {
      var r := builder.Run(request, false, Complete);
      outcomes := outcomes + [r];
    }
  }

  /** A crash at the wrong moment makes such a directory out of any entry that fails its check: removing
      it stops once the image is gone, and no later run ever serves the request again. */
  method CrashSticks(builder: KernelBuilder, request: Request, cut: Removal, runs: nat)
      returns (first: Outcome, outcomes: seq<Outcome>)
    requires Resolved(request) && cut.Cut? && !cut.image
    requires request in builder.entries && builder.entries[request].image.Some?
    requires !Servable(builder.entries[request], request)
    modifies builder
    ensures first == Crashed && |outcomes| == runs && Hit !in outcomes
    ensures request in builder.entries && builder.entries[request].image.None?
  {
    first := builder.Run(request, false, cut);
    outcomes := StuckEntry(builder, request, runs);
  }
}

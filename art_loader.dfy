/** The art loader: a registry of sketch factories, a manifest of sketches
    (fetched or a fallback), the `<script>` tags it adds to the document,
    the grid of cards it renders and the p5 instances it creates. The
    document is abstract state of the loader object: whether it has an
    `art-grid` element and what that grid holds, and the sources of the
    script tags in the head. Fetch and script-load outcomes, what each
    sketch script registers when it runs, and which factories throw are
    inputs. */
module Art {
  import opened Wrappers

  /** One manifest entry. */
  datatype ArtItem = ArtItem(id: string, title: string, script: string)

  /** A registered sketch factory, known only by its identity. */
  datatype Factory = Factory(name: string)

  /** A p5 instance: the sketch id, the factory that made it, and the
      position of its container among the `.art-canvas` elements. */
  datatype Instance = Instance(sketch: string, factory: Factory, container: nat)

  /** One call of an instance's `remove`, and whether it threw. */
  datatype Removal = Removal(instance: Instance, threw: bool)

  /** A card of the grid: the title shown and the `data-sketch-id` of its canvas. */
  datatype Card = Card(title: string, sketchId: string)

  /** How `renderGrid` ended: no grid, a script failed to load (the
      promise rejects), a factory or `new p5` threw while the sketches were
      being started (the promise rejects), or every sketch started. */
  datatype RenderOutcome = NoGrid | ScriptsFailed | SketchFailed | Rendered

  const IndexUrl: string := "/art/index.json"

  /** `getFallback`: the two sketches used when the manifest cannot be loaded. */
  function Fallback(): (items: seq<ArtItem>)
    ensures |items| == 2 && items[0].id == "neon-orbits" && items[1].id == "matrix-flow"
    ensures forall item <- items :: item.script == "/art/sketches/" + item.id + ".js"
  {
    [ ArtItem("neon-orbits", "Neon Orbits", "/art/sketches/neon-orbits.js"),
      ArtItem("matrix-flow", "Matrix Flow", "/art/sketches/matrix-flow.js") ]
  }

  /** The cards the grid shows for a manifest, one per entry, in order. */
  function Cards(manifest: seq<ArtItem>): (cards: seq<Card>)
    ensures |cards| == |manifest|
    ensures forall i :: 0 <= i < |cards| ==> cards[i] == Card(manifest[i].title, manifest[i].id)
  {
    if manifest == [] then []
    else [Card(manifest[0].title, manifest[0].id)] + Cards(manifest[1..])
  }

  /** The script sources of a manifest, in order (`manifest.map(item => item.script)`). */
  function Scripts(manifest: seq<ArtItem>): (srcs: seq<string>)
    ensures |srcs| == |manifest|
    ensures forall i :: 0 <= i < |srcs| ==> srcs[i] == manifest[i].script
  {
    if manifest == [] then []
    else [manifest[0].script] + Scripts(manifest[1..])
  }

  /** No source has two tags. */
  predicate Distinct(tags: seq<string>)
  {
    forall i, j :: 0 <= i < j < |tags| ==> tags[i] != tags[j]
  }

  /** The script tags after loading `srcs` in order, starting from `tags`:
      a source gets a new tag only when it has none yet. */
  function AfterLoads(tags: seq<string>, srcs: seq<string>): (after: seq<string>)
    ensures tags <= after && |after| <= |tags| + |srcs|
  {
    if srcs == [] then tags
    else
      var before := AfterLoads(tags, srcs[..|srcs| - 1]);
      if srcs[|srcs| - 1] in before then before else before + [srcs[|srcs| - 1]]
  }

  /** Loading keeps the existing tags in place, gives every source a tag,
      and adds tags only for those sources. */
  lemma {:induction false} AfterLoadsCovers(tags: seq<string>, srcs: seq<string>)
    ensures tags <= AfterLoads(tags, srcs)
    ensures forall src <- srcs :: src in AfterLoads(tags, srcs)
    ensures forall src <- AfterLoads(tags, srcs) :: src in tags || src in srcs
  {
    if srcs != [] {
      var init := srcs[..|srcs| - 1];
      AfterLoadsCovers(tags, init);
      assert srcs == init + [srcs[|srcs| - 1]];
    }
  }

  /** Exactly one tag per source: loading never duplicates a tag. */
  lemma {:induction false} AfterLoadsDistinct(tags: seq<string>, srcs: seq<string>)
    requires Distinct(tags)
    ensures Distinct(AfterLoads(tags, srcs))
  {
    if srcs != [] {
      AfterLoadsDistinct(tags, srcs[..|srcs| - 1]);
    }
  }

  /** Sources that already have a tag add nothing. */
  lemma {:induction false} AfterLoadsPresent(tags: seq<string>, srcs: seq<string>)
    requires forall src <- srcs :: src in tags
    ensures AfterLoads(tags, srcs) == tags
  {
    if srcs != [] {
      var init := srcs[..|srcs| - 1];
      assert forall src <- init :: src in srcs;
      AfterLoadsPresent(tags, init);
    }
  }

  /** Loading the same sources a second time adds no tag. */
  lemma AfterLoadsIdempotent(tags: seq<string>, srcs: seq<string>)
    ensures AfterLoads(AfterLoads(tags, srcs), srcs) == AfterLoads(tags, srcs)
  {
    AfterLoadsCovers(tags, srcs);
    AfterLoadsPresent(AfterLoads(tags, srcs), srcs);
  }

  /** What the script at `src` registers when it runs: each sketch file
      ends by calling `window.artLoader.register(id, factory)`. */
  function Registrations(registers: map<string, map<string, Factory>>, src: string): map<string, Factory>
  {
    if src in registers then registers[src] else map[]
  }

  /** The registry after loading `srcs` in order, starting from the tags
      `tags`: a source that gets a new tag and loads runs, and so adds its
      registrations; a source that already had a tag, or fails to load,
      does not run. */
  function RegistryAfter(registry: map<string, Factory>, tags: seq<string>, srcs: seq<string>,
                         broken: set<string>, registers: map<string, map<string, Factory>>): (after: map<string, Factory>)
    ensures registry.Keys <= after.Keys
  {
    if srcs == [] then registry
    else
      var init := srcs[..|srcs| - 1];
      var src := srcs[|srcs| - 1];
      var before := RegistryAfter(registry, tags, init, broken, registers);
      if src !in AfterLoads(tags, init) && src !in broken then before + Registrations(registers, src)
      else before
  }

  /** Loading only sources that already have a tag or fail to load runs
      no script, so the registry is unchanged. */
  lemma {:induction false} RegistryAfterQuiet(registry: map<string, Factory>, tags: seq<string>, srcs: seq<string>,
                                              broken: set<string>, registers: map<string, map<string, Factory>>)
    requires forall src <- srcs :: src in tags || src in broken
    ensures RegistryAfter(registry, tags, srcs, broken, registers) == registry
  {
    if srcs != [] {
      var init := srcs[..|srcs| - 1];
      var src := srcs[|srcs| - 1];
      assert forall x <- init :: x in srcs;
      RegistryAfterQuiet(registry, tags, init, broken, registers);
      if src in tags {
        var j :| 0 <= j < |tags| && tags[j] == src;
        assert AfterLoads(tags, init)[j] == src;
      }
    }
  }

  /** One more source: it adds its registrations exactly when it is new
      and loads. */
  lemma RegistryStep(registry: map<string, Factory>, tags: seq<string>, srcs: seq<string>, i: int,
                     broken: set<string>, registers: map<string, map<string, Factory>>)
    requires 0 <= i < |srcs|
    ensures var before := RegistryAfter(registry, tags, srcs[..i], broken, registers);
            RegistryAfter(registry, tags, srcs[..i + 1], broken, registers)
              == if srcs[i] !in AfterLoads(tags, srcs[..i]) && srcs[i] !in broken
                 then before + Registrations(registers, srcs[i]) else before
  {
    assert srcs[..i + 1][..i] == srcs[..i];
  }

  /** Every id that a newly loaded script registers is in the registry
      afterwards. */
  lemma {:induction false} RegistryAfterGains(registry: map<string, Factory>, tags: seq<string>, srcs: seq<string>,
                                              broken: set<string>, registers: map<string, map<string, Factory>>,
                                              i: int, id: string)
    requires 0 <= i < |srcs| && srcs[i] !in AfterLoads(tags, srcs[..i]) && srcs[i] !in broken
    requires id in Registrations(registers, srcs[i])
    ensures id in RegistryAfter(registry, tags, srcs, broken, registers)
  {
    var init := srcs[..|srcs| - 1];
    if i < |srcs| - 1 {
      assert init[..i] == srcs[..i];
      RegistryAfterGains(registry, tags, init, broken, registers, i, id);
    } else {
      assert init == srcs[..i];
    }
  }

  /** Every entry of the registry afterwards was there before or was
      registered by one of the scripts that got a new tag and loaded: a
      script that fails to load never runs, so it registers nothing. */
  lemma {:induction false} RegistryAfterOnly(registry: map<string, Factory>, tags: seq<string>, srcs: seq<string>,
                                             broken: set<string>, registers: map<string, map<string, Factory>>)
    ensures var after := RegistryAfter(registry, tags, srcs, broken, registers);
            forall id <- after ::
              (id in registry && after[id] == registry[id])
              || exists i :: 0 <= i < |srcs| && srcs[i] !in AfterLoads(tags, srcs[..i]) && srcs[i] !in broken
                             && id in Registrations(registers, srcs[i])
                             && after[id] == Registrations(registers, srcs[i])[id]
  {
    if srcs != [] {
      var init := srcs[..|srcs| - 1];
      RegistryAfterOnly(registry, tags, init, broken, registers);
      forall i | 0 <= i < |init| ensures init[i] == srcs[i] && init[..i] == srcs[..i] { }
    }
  }

  /** How far `forEach` gets over the containers `ids` before a factory
      call or `new p5` throws: the first container whose id has a factory
      in `throwing`, or all of them. */
  function Reached(ids: seq<string>, registry: map<string, Factory>, throwing: set<string>): (n: nat)
    ensures n <= |ids|
    ensures forall j :: 0 <= j < n ==> ids[j] !in registry || ids[j] !in throwing
    ensures n < |ids| ==> ids[n] in registry && ids[n] in throwing
  {
    if ids == [] then 0
    else if ids[0] in registry && ids[0] in throwing then 0
    else
      var rest := Reached(ids[1..], registry, throwing);
      assert forall j :: 1 <= j < |ids| ==> ids[1..][j - 1] == ids[j];
      1 + rest
  }

  /** `Promise.all` over the loads resolves: every source either had a tag
      already (resolved at once) or its new tag loaded. A source repeated
      in `srcs` rejects through its first load, if at all. */
  predicate LoadsFine(tags: seq<string>, srcs: seq<string>, broken: set<string>)
    ensures broken == {} ==> LoadsFine(tags, srcs, broken)
    ensures (forall src <- srcs :: src in tags) ==> LoadsFine(tags, srcs, broken)
    ensures (exists src <- srcs :: src !in tags && src in broken) ==> !LoadsFine(tags, srcs, broken)
  {
    forall i :: 0 <= i < |srcs| ==> srcs[i] in tags || srcs[i] !in broken
  }

  /** Loading one more source: it gets a tag unless it has one, and the
      loads still resolve unless it is new and broken. */
  lemma LoadStep(tags: seq<string>, srcs: seq<string>, i: int, broken: set<string>)
    requires 0 <= i < |srcs|
    ensures var before := AfterLoads(tags, srcs[..i]);
            AfterLoads(tags, srcs[..i + 1]) == if srcs[i] in before then before else before + [srcs[i]]
    ensures LoadsFine(tags, srcs[..i + 1], broken)
        == (LoadsFine(tags, srcs[..i], broken) && (srcs[i] in AfterLoads(tags, srcs[..i]) || srcs[i] !in broken))
  {
    assert srcs[..i + 1][..i] == srcs[..i];
    AfterLoadsCovers(tags, srcs[..i]);
  }

  /** The `remove` calls made while draining `s`: `remove` is called once
      on every instance, last to first, and a failure is recorded exactly
      for the instances whose `remove` throws. */
  function Drained(s: seq<Instance>, failing: set<Instance>): (calls: seq<Removal>)
    ensures |calls| == |s|
    ensures forall i :: 0 <= i < |s| ==> calls[i].instance == s[|s| - 1 - i]
    ensures forall i :: 0 <= i < |s| ==> calls[i].threw == (s[|s| - 1 - i] in failing)
  {
    if s == [] then [] else Drained(s[1..], failing) + [Removal(s[0], s[0] in failing)]
  }

  /** Popping the instance at `k`: its `remove` call comes after those
      of the instances above it. */
  lemma DrainStep(s: seq<Instance>, k: int, failing: set<Instance>)
    requires 0 <= k < |s|
    ensures Drained(s[k..], failing) == Drained(s[k + 1..], failing) + [Removal(s[k], s[k] in failing)]
  {
    assert s[k..][1..] == s[k + 1..];
  }

  /** The instances `initializeArt` creates for containers with the given
      sketch ids: one per container whose id is registered, in container
      order. */
  function Spawned(ids: seq<string>, registry: map<string, Factory>): (spawned: seq<Instance>)
    ensures |spawned| <= |ids|
    ensures forall inst <- spawned :: inst.sketch in registry
  {
    if ids == [] then []
    else
      var before := Spawned(ids[..|ids| - 1], registry);
      var id := ids[|ids| - 1];
      if id in registry then before + [Instance(id, registry[id], |ids| - 1)] else before
  }

  /** One more container: it gets an instance when its id is registered. */
  lemma SpawnStep(ids: seq<string>, i: int, registry: map<string, Factory>)
    requires 0 <= i < |ids|
    ensures Spawned(ids[..i + 1], registry)
         == if ids[i] in registry then Spawned(ids[..i], registry) + [Instance(ids[i], registry[ids[i]], i)]
            else Spawned(ids[..i], registry)
  {
    assert ids[..i + 1][..i] == ids[..i];
  }

  /** Every instance belongs to a container whose id is registered, was
      made by that id's factory, and containers appear in increasing order
      (so none has two instances). */
  lemma {:induction false} SpawnedSound(ids: seq<string>, registry: map<string, Factory>)
    ensures forall inst <- Spawned(ids, registry) ::
              && inst.container < |ids| && ids[inst.container] == inst.sketch
              && inst.sketch in registry && inst.factory == registry[inst.sketch]
    ensures forall i, j :: 0 <= i < j < |Spawned(ids, registry)| ==>
              Spawned(ids, registry)[i].container < Spawned(ids, registry)[j].container
  {
    if ids != [] {
      var init := ids[..|ids| - 1];
      SpawnedSound(init, registry);
      forall inst <- Spawned(init, registry) ensures inst.container < |init| && ids[inst.container] == inst.sketch {
        assert init[inst.container] == ids[inst.container];
      }
    }
  }

  /** Every container whose id is registered gets an instance; containers
      without a factory get none. */
  lemma {:induction false} SpawnedComplete(ids: seq<string>, registry: map<string, Factory>, k: nat)
    requires k < |ids|
    ensures ids[k] in registry ==> Instance(ids[k], registry[ids[k]], k) in Spawned(ids, registry)
    ensures ids[k] !in registry ==> forall inst <- Spawned(ids, registry) :: inst.container != k
  {
    var init := ids[..|ids| - 1];
    SpawnedSound(ids, registry);
    if k < |ids| - 1 {
      assert init[k] == ids[k];
      SpawnedComplete(init, registry, k);
    }
  }

  /** The `data-sketch-id` of each card's canvas, in order. */
  function SketchIds(cards: seq<Card>): (ids: seq<string>)
    ensures |ids| == |cards|
    ensures forall i :: 0 <= i < |ids| ==> ids[i] == cards[i].sketchId
  {
    if cards == [] then [] else [cards[0].sketchId] + SketchIds(cards[1..])
  }

  /** The loader object, together with the part of the document it touches. */
  class ArtLoader {
    var registry: map<string, Factory>
    var instances: seq<Instance>
    var initialized: bool
    var manifest: seq<ArtItem>
    /** The URLs fetched so far. */
    var requests: seq<string>
    /** The `data-art-src` of each script tag in the document head, in order. */
    var scriptTags: seq<string>
    /** The `art-grid` element's cards, or `None` when the page has no grid. */
    var grid: Option<seq<Card>>
    /** Every `remove` call made on an instance. */
    var removals: seq<Removal>

    /** The `data-sketch-id` of every `.art-canvas` element, in document
        order: the canvases of the grid's cards. */
    function Containers(): (ids: seq<string>)
      reads this
      ensures grid.Some? ==> |ids| == |grid.value|
      ensures grid.Some? ==> forall i :: 0 <= i < |ids| ==> ids[i] == grid.value[i].sketchId
      ensures grid.None? ==> ids == []
    {
      if grid.None? then [] else SketchIds(grid.value)
    }

    /** No script source has two tags. */
    predicate Valid()
      reads this
    {
      Distinct(scriptTags)
    }

    /** A fresh loader on a page whose grid element exists or not, with the
        given script tags already in its head. */
    constructor(hasGrid: bool, tags: seq<string>)
      requires Distinct(tags)
      ensures Valid()
      ensures registry == map[] && instances == [] && !initialized && manifest == []
      ensures requests == [] && scriptTags == tags && removals == []
      ensures grid == if hasGrid then Some([]) else None
    {
      registry := map[];
      instances := [];
      initialized := false;
      manifest := [];
      requests := [];
      scriptTags := tags;
      grid := if hasGrid then Some([]) else None;
      removals := [];
    }

    /** `register(id, factory)`: the last registration of an id wins. */
    method Register(id: string, factory: Factory)
      modifies this
      ensures registry == old(registry)[id := factory]
      ensures id in registry && registry[id] == factory
      ensures forall other <- old(registry) | other != id :: other in registry && registry[other] == old(registry)[other]
      ensures instances == old(instances) && initialized == old(initialized) && manifest == old(manifest)
      ensures requests == old(requests) && scriptTags == old(scriptTags) && grid == old(grid)
      ensures removals == old(removals)
    {
      registry := registry[id := factory];
    }

    /** `init`: on the first call, fetch the manifest; an ok response is
        adopted, a failed or throwing one gives the fallback. Later calls
        do nothing. */
    method Init(index: Fetched<seq<ArtItem>>)
      modifies this
      ensures initialized
      ensures old(initialized) ==> unchanged(this)
      ensures !old(initialized) ==> manifest == (if index.Ok? then index.body else Fallback())
      ensures !old(initialized) ==> requests == old(requests) + [IndexUrl]
      ensures registry == old(registry) && instances == old(instances) && scriptTags == old(scriptTags)
      ensures grid == old(grid) && removals == old(removals)
    {
      if initialized {
        return;
      }
      requests := requests + [IndexUrl];
      match index {
        case Ok(body) =>
          manifest := body;
        case NotOk =>
          manifest := Fallback();
        case Throws =>
          manifest := Fallback();
      }
      initialized := true;
    }

    /** `loadScript(src)`: with a tag for `src` already present it resolves
        at once and adds nothing; otherwise it appends one tag, which stays
        even when the script fails to load (then the promise rejects). A
        script that loads has run before `onload` fires, so its own
        `register` calls are in the registry by the time the promise
        resolves; `registers` says what each script registers. */
    method LoadScript(src: string, broken: set<string>, registers: map<string, map<string, Factory>>)
      returns (resolved: bool)
      requires Valid()
      modifies this
      ensures Valid()
      ensures src in old(scriptTags) ==> resolved && scriptTags == old(scriptTags)
      ensures src !in old(scriptTags) ==> scriptTags == old(scriptTags) + [src] && resolved == (src !in broken)
      ensures registry == if src !in old(scriptTags) && src !in broken
                          then old(registry) + Registrations(registers, src) else old(registry)
      ensures instances == old(instances) && initialized == old(initialized)
      ensures manifest == old(manifest) && requests == old(requests) && grid == old(grid)
      ensures removals == old(removals)
    {
      if src in scriptTags {
        return true;
      }
      scriptTags := scriptTags + [src];
      resolved := src !in broken;
      if resolved {
        registry := registry + Registrations(registers, src);
      }
    }

    /** `loadScripts`: one `loadScript` per manifest entry, in order; the
        combined promise resolves only if every load does. The scripts
        that load register their sketches whether or not another fails. */
    method LoadScripts(broken: set<string>, registers: map<string, map<string, Factory>>)
      returns (resolved: bool)
      requires Valid()
      modifies this
      ensures Valid()
      ensures scriptTags == AfterLoads(old(scriptTags), Scripts(manifest))
      ensures resolved == LoadsFine(old(scriptTags), Scripts(manifest), broken)
      ensures registry == RegistryAfter(old(registry), old(scriptTags), Scripts(manifest), broken, registers)
      ensures instances == old(instances) && initialized == old(initialized)
      ensures manifest == old(manifest) && requests == old(requests) && grid == old(grid)
      ensures removals == old(removals)
    {
      var srcs := Scripts(manifest);
      resolved := true;
      var i := 0;
      while i < |srcs|
        invariant 0 <= i <= |srcs|
        invariant Valid()
        invariant scriptTags == AfterLoads(old(scriptTags), srcs[..i])
        invariant resolved == LoadsFine(old(scriptTags), srcs[..i], broken)
        invariant registry == RegistryAfter(old(registry), old(scriptTags), srcs[..i], broken, registers)
        invariant instances == old(instances) && initialized == old(initialized)
        invariant manifest == old(manifest) && requests == old(requests) && grid == old(grid)
        invariant removals == old(removals)
      {
        LoadStep(old(scriptTags), srcs, i, broken);
        RegistryStep(old(registry), old(scriptTags), srcs, i, broken, registers);
        var ok := LoadScript(srcs[i], broken, registers);
        resolved := resolved && ok;
        i := i + 1;
      }
      assert srcs[..|srcs|] == srcs;
    }

    /** `clearInstances`: pop every instance and call its `remove`,
        swallowing any failure, until none is left. */
    method ClearInstances(failing: set<Instance>)
      modifies this
      ensures instances == []
      ensures removals == old(removals) + Drained(old(instances), failing)
      ensures registry == old(registry) && initialized == old(initialized) && manifest == old(manifest)
      ensures requests == old(requests) && scriptTags == old(scriptTags) && grid == old(grid)
    {
      ghost var start := instances;
      while |instances| > 0
        invariant instances == start[..|instances|]
        invariant removals == old(removals) + Drained(start[|instances|..], failing)
        invariant registry == old(registry) && initialized == old(initialized) && manifest == old(manifest)
        invariant requests == old(requests) && scriptTags == old(scriptTags) && grid == old(grid)
        decreases |instances|
      {
        var k := |instances| - 1;
        var inst := instances[k];
        DrainStep(start, k, failing);
        instances := instances[..k];
        removals := removals + [Removal(inst, inst in failing)];
      }
      assert start[0..] == start;
    }

    /** `initializeArt`: clear the old instances, then walk the canvases
        and create an instance for each one whose sketch id has a
        registered factory. A factory call or `new p5` that throws (for the
        ids in `throwing`) ends the walk: the instances made so far stay,
        and the call throws (`completed` is false). */
    method InitializeArt(failing: set<Instance>, throwing: set<string>) returns (completed: bool)
      modifies this
      ensures var ids := Containers();
              var n := Reached(ids, registry, throwing);
              instances == Spawned(ids[..n], registry) && completed == (n == |ids|)
      ensures removals == old(removals) + Drained(old(instances), failing)
      ensures registry == old(registry) && initialized == old(initialized) && manifest == old(manifest)
      ensures requests == old(requests) && scriptTags == old(scriptTags) && grid == old(grid)
    {
      ClearInstances(failing);
      var ids := Containers();
      ghost var n := Reached(ids, registry, throwing);
      var i := 0;
      while i < |ids|
        invariant 0 <= i <= n
        invariant instances == Spawned(ids[..i], registry)
        invariant removals == old(removals) + Drained(old(instances), failing)
        invariant registry == old(registry) && initialized == old(initialized) && manifest == old(manifest)
        invariant requests == old(requests) && scriptTags == old(scriptTags) && grid == old(grid)
      {
        SpawnStep(ids, i, registry);
        var id := ids[i];
        if id in registry {
          if id in throwing {
            return false;
          }
          instances := instances + [Instance(id, registry[id], i)];
        }
        i := i + 1;
      }
      assert ids[..|ids|] == ids;
      completed := true;
    }

    /** `renderGrid`: after `init`, a page without a grid is left alone;
        otherwise the grid gets one card per manifest entry and the scripts
        are loaded, which registers the sketches of those that load. Only
        if every load resolves are the sketches initialised. */
    method RenderGrid(index: Fetched<seq<ArtItem>>, broken: set<string>, failing: set<Instance>,
                      throwing: set<string>, registers: map<string, map<string, Factory>>)
      returns (outcome: RenderOutcome)
      requires Valid()
      modifies this
      ensures Valid() && initialized
      ensures manifest == (if old(initialized) then old(manifest)
                           else if index.Ok? then index.body else Fallback())
      ensures requests == old(requests) + (if old(initialized) then [] else [IndexUrl])
      ensures old(grid).None? ==>
                outcome == NoGrid && grid == None && scriptTags == old(scriptTags) && registry == old(registry)
                && instances == old(instances) && removals == old(removals)
      ensures old(grid).Some? ==>
                grid == Some(Cards(manifest)) && scriptTags == AfterLoads(old(scriptTags), Scripts(manifest))
                && registry == RegistryAfter(old(registry), old(scriptTags), Scripts(manifest), broken, registers)
      ensures old(grid).Some? && !LoadsFine(old(scriptTags), Scripts(manifest), broken) ==>
                outcome == ScriptsFailed && instances == old(instances) && removals == old(removals)
      ensures old(grid).Some? && LoadsFine(old(scriptTags), Scripts(manifest), broken) ==>
                var ids := Containers();
                var n := Reached(ids, registry, throwing);
                && outcome == (if n == |ids| then Rendered else SketchFailed)
                && instances == Spawned(ids[..n], registry)
                && removals == old(removals) + Drained(old(instances), failing)
    {
      Init(index);
      if grid.None? {
        return NoGrid;
      }
      grid := Some(Cards(manifest));
      var ok := LoadScripts(broken, registers);
      if !ok {
        return ScriptsFailed;
      }
      var completed := InitializeArt(failing, throwing);
      outcome := if completed then Rendered else SketchFailed;
    }
  }

  /** A script whose load failed keeps its tag: rendering again with the
      same manifest adds no tag, its loads now resolve, and the second
      render registers nothing new. */
  method RenderTwice(index: Fetched<seq<ArtItem>>, broken: set<string>, failing: set<Instance>,
                     registers: map<string, map<string, Factory>>)
    returns (first: RenderOutcome, second: RenderOutcome, tags: seq<string>, tagsAfterFirst: seq<string>,
             registry: map<string, Factory>, registryAfterFirst: map<string, Factory>)
    ensures second == Rendered
    ensures tags == tagsAfterFirst
    ensures Distinct(tags)
    ensures registry == registryAfterFirst
  {
    var loader := new ArtLoader(true, []);
    first := loader.RenderGrid(index, broken, failing, {}, registers);
    tagsAfterFirst := loader.scriptTags;
    registryAfterFirst := loader.registry;
    AfterLoadsCovers([], Scripts(loader.manifest));
    RegistryAfterQuiet(registryAfterFirst, tagsAfterFirst, Scripts(loader.manifest), broken, registers);
    second := loader.RenderGrid(NotOk, broken, failing, {}, registers);
    AfterLoadsIdempotent([], Scripts(loader.manifest));
    tags := loader.scriptTags;
    registry := loader.registry;
  }

  /** The first render of a page with a grid and no manifest: the fallback
      sketches' scripts load and register their factories, so each of the
      two cards gets its p5 instance. */
  method FirstRender(neon: Factory, matrix: Factory) returns (outcome: RenderOutcome, instances: seq<Instance>)
    ensures outcome == Rendered
    ensures instances == [Instance("neon-orbits", neon, 0), Instance("matrix-flow", matrix, 1)]
  {
    var registers := map["/art/sketches/neon-orbits.js" := map["neon-orbits" := neon],
                         "/art/sketches/matrix-flow.js" := map["matrix-flow" := matrix]];
    FallbackRegistry(neon, matrix);
    FallbackSpawn(neon, matrix);
    var loader := new ArtLoader(true, []);
    outcome := loader.RenderGrid(Throws, {}, {}, {}, registers);
    instances := loader.instances;
  }

  /** Loading the fallback sketches' scripts on a page without script tags
      registers both sketches. */
  lemma FallbackRegistry(neon: Factory, matrix: Factory)
    ensures var registers := map["/art/sketches/neon-orbits.js" := map["neon-orbits" := neon],
                                 "/art/sketches/matrix-flow.js" := map["matrix-flow" := matrix]];
            RegistryAfter(map[], [], Scripts(Fallback()), {}, registers)
              == map["neon-orbits" := neon, "matrix-flow" := matrix]
  {
    var registers := map["/art/sketches/neon-orbits.js" := map["neon-orbits" := neon],
                         "/art/sketches/matrix-flow.js" := map["matrix-flow" := matrix]];
    var a, b := "/art/sketches/neon-orbits.js", "/art/sketches/matrix-flow.js";
    var srcs := Scripts(Fallback());
    assert srcs == [a, b];
    assert srcs[..1] == [a] && srcs[..1][..0] == [];
    assert a[14] != b[14];
    assert AfterLoads([], [a]) == [a];
    var none: seq<string> := [];
    assert [a][..0] == none && AfterLoads(none, none) == none;
    assert RegistryAfter(map[], none, none, {}, registers) == map[];
    assert Registrations(registers, a) == map["neon-orbits" := neon];
    assert Registrations(registers, b) == map["matrix-flow" := matrix];
    assert RegistryAfter(map[], [], [a], {}, registers) == map["neon-orbits" := neon];
  }

  /** The fallback grid's two canvases, with both sketches registered and
      no factory throwing, get one instance each, in order. */
  lemma FallbackSpawn(neon: Factory, matrix: Factory)
    ensures var ids := SketchIds(Cards(Fallback()));
            var registry := map["neon-orbits" := neon, "matrix-flow" := matrix];
            && ids == ["neon-orbits", "matrix-flow"] && Reached(ids, registry, {}) == 2
            && Spawned(ids[..2], registry) == [Instance("neon-orbits", neon, 0), Instance("matrix-flow", matrix, 1)]
  {
    var ids := SketchIds(Cards(Fallback()));
    var registry := map["neon-orbits" := neon, "matrix-flow" := matrix];
    assert ids == ["neon-orbits", "matrix-flow"];
    assert ids[..2] == ids && ids[..1] == ["neon-orbits"] && ids[..1][..0] == [];
    assert Spawned(ids[..1], registry) == [Instance("neon-orbits", neon, 0)];
  }
}

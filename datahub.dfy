/** The data hub logger (src/zeitgeist_loggers/zeitgeist-datahub.py).

    The hub loads its data sources from datasource modules and keeps a queue
    of sources whose items still have to be sent to the engine. An idle
    callback takes the source at the head of the queue, sends its items and
    drops it, and keeps itself scheduled while the queue is not empty. A
    source that signals "reload" is queued again unless already queued.

    Module imports, the items a source yields and the outcome of the D-Bus
    insert call are not computed here: they are parameters. The main loop is
    represented only by what the hub asks of it: the number of idle
    callbacks it registered and whether it asked the loop to quit. */
module DataHub {
  import opened Wrappers

  /** A data source object, as a value: `id` stands for the object's
      identity, and `==` and `in` compare the whole value, id and name, so
      two distinct objects are modelled by values with different ids. */
  datatype DataSource = DataSource(id: nat, name: string)

  /** The `__datasource__` attribute of a datasource module: one source, or
      an iterable of sources. */
  datatype Exported = Single(source: DataSource) | Several(sources: seq<DataSource>)

  /** The result of importing one datasource file: the import failed, or the
      module, with its `__datasource__` attribute if it has one. */
  datatype ImportResult = ImportFailed | Module(datasource: Option<Exported>)

  /** What the D-Bus call `insert_items` does with a non-empty batch. */
  datatype InsertOutcome = Inserted | ServiceUnknown | OtherDBusError | TypeErrorRaised

  /** The exceptions that leave the idle callback. */
  datatype HubError = IndexError | DBusError

  /** The sources one datasource file contributes. */
  function Contributed(m: ImportResult): seq<DataSource>
  {
    match m
    case ImportFailed => []
    case Module(None) => []
    case Module(Some(Single(s))) => [s]
    case Module(Some(Several(ss))) => ss
  }

  /** The sources a list of datasource files contributes, in file order. */
  function ContributedAll(ms: seq<ImportResult>): seq<DataSource>
  {
    if ms == [] then [] else ContributedAll(ms[..|ms| - 1]) + Contributed(ms[|ms| - 1])
  }

  predicate Distinct(q: seq<DataSource>)
  {
    forall i, j :: 0 <= i < j < |q| ==> q[i] != q[j]
  }

  class DataHub {
    var sources: seq<DataSource>
    var queue: seq<DataSource>
    var updateInProgress: bool
    /** How many idle callbacks the hub registered with the main loop. */
    var idleAdds: nat
    /** Whether the hub asked the main loop to quit. */
    var quitRequested: bool
    /** The sources whose items went to the insert call, in order. */
    var submitted: seq<DataSource>

    /** A queued source always has an update on its way. */
    ghost predicate Valid()
      reads this
    {
      queue != [] ==> updateInProgress
    }

    /** `__init__` up to the main loop: the sources of every datasource file,
        all of them queued, an update marked in progress and one idle
        callback registered. */
    constructor (modules: seq<ImportResult>)
      ensures Valid()
      ensures sources == ContributedAll(modules)
      ensures queue == sources
      ensures updateInProgress && idleAdds == 1 && !quitRequested && submitted == []
    {
      sources, queue, updateInProgress, idleAdds, quitRequested, submitted := [], [], false, 0, false, [];
      new;
      var i := 0;
      while i < |modules|
        invariant 0 <= i <= |modules|
        invariant sources == ContributedAll(modules[..i])
        invariant queue == [] && !updateInProgress && idleAdds == 0 && !quitRequested && submitted == []
      {
        assert modules[..i + 1][..i] == modules[..i];
        LoadDatasourceFile(modules[i]);
        i := i + 1;
      }
      assert modules[..i] == modules;
      queue := sources;
      updateInProgress := true;
      idleAdds := idleAdds + 1;
    }

    /** `_load_datasource_file`: nothing when the import failed; otherwise
        the module's sources are added, one or several, or none when it
        exports none. Nothing else changes. */
    method LoadDatasourceFile(m: ImportResult)
      modifies this
      ensures sources == old(sources) + Contributed(m)
      ensures queue == old(queue) && updateInProgress == old(updateInProgress)
      ensures idleAdds == old(idleAdds) && quitRequested == old(quitRequested) && submitted == old(submitted)
    {
      match m
      case ImportFailed =>
      case Module(exported) =>
        if exported.Some? {
          match exported.value
          case Several(ss) =>
            sources := sources + ss;
          case Single(s) =>
            sources := sources + [s];
        }
    }

    /** `_update_db_with_source`, the "reload" handler: queues the source
        unless it is already queued, and registers an idle callback only
        when no update is in progress. */
    method UpdateDbWithSource(source: DataSource)
      requires Valid()
      modifies this
      ensures Valid()
      ensures source in queue
      ensures queue == (if source in old(queue) then old(queue) else old(queue) + [source])
      ensures Distinct(old(queue)) ==> Distinct(queue)
      ensures idleAdds == old(idleAdds) + (if source !in old(queue) && !old(updateInProgress) then 1 else 0)
      ensures updateInProgress == (old(updateInProgress) || source !in old(queue))
      ensures sources == old(sources) && quitRequested == old(quitRequested) && submitted == old(submitted)
    {
      if source !in queue {
        queue := queue + [source];
        if !updateInProgress {
          updateInProgress := true;
          idleAdds := idleAdds + 1;
        }
      }
    }

    /** `_update_db_async`, one run of the idle callback. `itemCount` is how
        many items the head source yields and `outcome` what the insert call
        does with them.

        An empty queue raises IndexError. A D-Bus error other than an unknown
        service is raised again with the queue untouched. Otherwise the head
        is removed, also after an unknown service (which asks the main loop
        to quit) or a type error (which is swallowed); the callback then
        asks to run again exactly when sources are left, and clears the
        in-progress flag when none are. */
    method UpdateDbAsync(itemCount: nat, outcome: InsertOutcome) returns (r: Result<bool, HubError>)
      requires Valid()
      modifies this
      ensures Valid()
      ensures old(queue) == [] ==> r == Err(IndexError) && queue == old(queue) && submitted == old(submitted)
      ensures old(queue) != [] && itemCount > 0 && outcome == OtherDBusError ==>
        r == Err(DBusError) && queue == old(queue) && submitted == old(submitted) + [old(queue)[0]]
      ensures r.Ok? ==>
        && old(queue) != []
        && queue == old(queue)[1..]
        && r.value == (queue != [])
        && updateInProgress == (queue != [])
        && submitted == old(submitted) + (if itemCount > 0 then [old(queue)[0]] else [])
        && quitRequested == (old(quitRequested) || (itemCount > 0 && outcome == ServiceUnknown))
      ensures r.Ok? <==> old(queue) != [] && !(itemCount > 0 && outcome == OtherDBusError)
      ensures r.Err? ==> updateInProgress == old(updateInProgress) && quitRequested == old(quitRequested)
      ensures Distinct(old(queue)) ==> Distinct(queue)
      ensures sources == old(sources) && idleAdds == old(idleAdds)
    {
      if queue == [] {
        return Err(IndexError);
      }
      var head := queue[0];
      if itemCount > 0 {
        submitted := submitted + [head];
        match outcome
        case OtherDBusError =>
          return Err(DBusError);
        case ServiceUnknown =>
          quitRequested := true;
        case TypeErrorRaised =>
        case Inserted =>
      }
      queue := queue[1..];
      if |queue| == 0 {
        updateInProgress := false;
        return Ok(false);
      }
      return Ok(true);
    }
  }

  /** The sources of several files are those of each file, in order. */
  lemma {:induction false} ContributedAllAppend(a: seq<ImportResult>, b: seq<ImportResult>)
    ensures ContributedAll(a + b) == ContributedAll(a) + ContributedAll(b)
    decreases |b|
  {
    if b == [] {
      assert a + b == a;
    } else {
      var ab, b' := a + b, b[..|b| - 1];
      assert ab[..|ab| - 1] == a + b' && ab[|ab| - 1] == b[|b| - 1];
      assert ContributedAll(ab) == ContributedAll(a + b') + Contributed(b[|b| - 1]);
      ContributedAllAppend(a, b');
    }
  }

  /** A file whose import fails, or that exports nothing, contributes no
      source wherever it appears in the list. */
  lemma FailedImportContributesNothing(a: seq<ImportResult>, m: ImportResult, b: seq<ImportResult>)
    requires m.ImportFailed? || m.datasource.None?
    ensures ContributedAll(a + [m] + b) == ContributedAll(a) + ContributedAll(b)
  {
    var am := a + [m];
    assert am[..|am| - 1] == a;
    assert ContributedAll(am) == ContributedAll(a) by {
      assert Contributed(m) == [];
    }
    ContributedAllAppend(am, b);
  }
}

/**
  Plugin bookkeeping: whether a project's manifest already lists a plugin,
  whether a plugin runs during execution, the handler's table of running
  plugins, and the manifest update that adds a plugin to a project.
  Reading plugin.json, starting processes and saving the manifest are
  outside the model; their outcomes are parameters.
 */
module Plugins {
  import opened Collections
  import opened Text

  /** The scope under which a plugin runs alongside an execution. */
  const ExecutionScope: string := "execution"

  /** A manifest entry: the plugin's id and version. */
  datatype PluginDetails = PluginDetails(id: string, version: string)

  datatype Manifest = Manifest(projectLanguage: string, plugins: seq<PluginDetails>)

  /** The parts of plugin.json the model reads. */
  datatype PluginDescriptor = PluginDescriptor(id: string, version: string, name: string, scope: seq<string>)

  /** A running plugin, known here only by its descriptor. */
  datatype Plugin = Plugin(descriptor: PluginDescriptor)

  /** pluginHandler: the running plugins by id; None is Go's nil map. */
  datatype PluginHandler = PluginHandler(pluginsMap: Option<map<string, Plugin>>)

  /** isPluginAdded: walks the manifest's entries looking for the descriptor's id and version together. */
  function IsPluginAdded(plugins: seq<PluginDetails>, descriptor: PluginDescriptor): (r: bool)
    ensures r <==> exists i :: 0 <= i < |plugins| && plugins[i].id == descriptor.id && plugins[i].version == descriptor.version
  {
    if |plugins| == 0 then false
    else if plugins[0].id == descriptor.id && plugins[0].version == descriptor.version then true
    else
      var r := IsPluginAdded(plugins[1..], descriptor);
      assert forall i :: 0 < i < |plugins| ==> plugins[i] == plugins[1..][i - 1];
      r
  }

  /** isExecutionScopePlugin: walks the descriptor's scopes looking for one that lower-cases to "execution". */
  function IsExecutionScopePlugin(scope: seq<string>): (r: bool)
    ensures r <==> exists i :: 0 <= i < |scope| && ToLower(scope[i]) == ExecutionScope
  {
    if |scope| == 0 then false
    else if ToLower(scope[0]) == ExecutionScope then true
    else
      var r := IsExecutionScopePlugin(scope[1..]);
      assert forall i :: 0 < i < |scope| ==> scope[i] == scope[1..][i - 1];
      r
  }

  /** The scope test ignores letter case: lower-casing every scope first does not change the answer. */
  lemma ExecutionScopeIgnoresCase(scope: seq<string>)
    ensures IsExecutionScopePlugin(MapSeq(scope, ToLower)) == IsExecutionScopePlugin(scope)
  {
    var lowered := MapSeq(scope, ToLower);
    forall i | 0 <= i < |scope| ensures ToLower(lowered[i]) == ToLower(scope[i]) {
      ToLowerIdempotent(scope[i]);
    }
  }

  /** The plugins a handler holds; a nil map holds none. */
  function Running(h: PluginHandler): map<string, Plugin>
  {
    if h.pluginsMap.Some? then h.pluginsMap.value else map[]
  }

  /** pluginHandler.addPlugin: creates the map when nil, then maps the id to the plugin, replacing any earlier one. */
  function AddPlugin(h: PluginHandler, pluginId: string, p: Plugin): (r: PluginHandler)
    ensures r.pluginsMap.Some?
    ensures pluginId in Running(r) && Running(r)[pluginId] == p
    ensures Running(r).Keys == Running(h).Keys + {pluginId}
    ensures forall id :: id in Running(h) && id != pluginId ==> Running(r)[id] == Running(h)[id]
  {
    var m := if h.pluginsMap.None? then map[] else h.pluginsMap.value;
    PluginHandler(Some(m[pluginId := p]))
  }

  /** pluginHandler.removePlugin: deletes only that id; deleting from a nil map or an absent id changes nothing. */
  function RemovePlugin(h: PluginHandler, pluginId: string): (r: PluginHandler)
    ensures r.pluginsMap.None? <==> h.pluginsMap.None?
    ensures Running(r).Keys == Running(h).Keys - {pluginId}
    ensures forall id :: id in Running(r) ==> Running(r)[id] == Running(h)[id]
    ensures pluginId !in Running(h) ==> r == h
  {
    match h.pluginsMap
    case None => h
    case Some(m) =>
      if pluginId !in m then
        assert m - {pluginId} == m;
        h
      else PluginHandler(Some(m - {pluginId}))
  }

  /** Removing a plugin just added leaves the same plugins running as removing it without adding it. */
  lemma RemoveUndoesAdd(h: PluginHandler, pluginId: string, p: Plugin)
    ensures Running(RemovePlugin(AddPlugin(h, pluginId, p), pluginId)) == Running(RemovePlugin(h, pluginId))
  {
  }

  /** Adding the same plugin under the same id twice is the same as adding it once. */
  lemma AddPluginIdempotent(h: PluginHandler, pluginId: string, p: Plugin)
    ensures AddPlugin(AddPlugin(h, pluginId, p), pluginId, p) == AddPlugin(h, pluginId, p)
  {
    UpdateTwice(Running(h), pluginId, p, p);
  }

  /**
    addPluginToTheProject, from the point where plugin.json has been read:
    an already listed id and version is refused with the manifest untouched;
    a failure to start the plugin for setup leaves the manifest untouched;
    otherwise exactly one entry is appended, and the outcome of saving the
    manifest is what is reported.
   */
  function AddPluginToTheProject(manifest: Manifest, descriptor: Result<PluginDescriptor, Error>,
                                 startError: Option<Error>, saveError: Option<Error>): (r: Effect<Manifest>)
    ensures descriptor.Failure? ==> r == Effect(manifest, Some(descriptor.error))
    ensures descriptor.Success? && IsPluginAdded(manifest.plugins, descriptor.value) ==>
      r == Effect(manifest, Some(Error("Plugin " + descriptor.value.name + " is already added")))
    ensures descriptor.Success? && !IsPluginAdded(manifest.plugins, descriptor.value) && startError.Some? ==>
      r == Effect(manifest, startError)
    ensures descriptor.Success? && !IsPluginAdded(manifest.plugins, descriptor.value) && startError.None? ==>
      && r.err == saveError
      && r.state.projectLanguage == manifest.projectLanguage
      && |r.state.plugins| == |manifest.plugins| + 1
      && r.state.plugins[..|manifest.plugins|] == manifest.plugins
      && r.state.plugins[|manifest.plugins|] == PluginDetails(descriptor.value.id, descriptor.value.version)
  {
    match descriptor
    case Failure(e) => Effect(manifest, Some(e))
    case Success(pd) =>
      if IsPluginAdded(manifest.plugins, pd) then
        Effect(manifest, Some(Error("Plugin " + pd.name + " is already added")))
      else if startError.Some? then Effect(manifest, startError)
      else
        Effect(manifest.(plugins := manifest.plugins + [PluginDetails(pd.id, pd.version)]), saveError)
  }

  /**
    Once a plugin has been added (whether or not saving succeeded), it is
    listed, and adding it again is refused without touching the manifest.
   */
  lemma AddedPluginIsRefusedAgain(manifest: Manifest, pd: PluginDescriptor, startError: Option<Error>, saveError: Option<Error>,
                                  startAgain: Option<Error>, saveAgain: Option<Error>)
    requires !IsPluginAdded(manifest.plugins, pd) && startError.None?
    ensures var added := AddPluginToTheProject(manifest, Success(pd), startError, saveError).state;
      && IsPluginAdded(added.plugins, pd)
      && AddPluginToTheProject(added, Success(pd), startAgain, saveAgain).state == added
      && AddPluginToTheProject(added, Success(pd), startAgain, saveAgain).err.Some?
  {
    var added := AddPluginToTheProject(manifest, Success(pd), startError, saveError).state;
    assert added.plugins[|manifest.plugins|] == PluginDetails(pd.id, pd.version);
  }
}

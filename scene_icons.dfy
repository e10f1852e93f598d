/**
 * SceneIconDatabase (Editor/ScenePanel/SceneIconDataBase.cs): one icon per
 * scene of the build settings. UpdateSceneList rebuilds the list from the
 * enabled build scenes, keeping the icon already chosen for a path, and
 * GetIcon looks a path up, falling back to the default icon.
 */
module SceneIcons {
  import opened Wrappers

  /** A texture asset; None is a missing (null) texture. */
  type IconId = nat

  /** EditorBuildSettingsScene: a scene path and whether it is enabled. */
  datatype BuildScene = BuildScene(path: string, enabled: bool)

  /** BuildSceneReference: a scene path and its icon. */
  datatype SceneEntry = SceneEntry(path: string, icon: Option<IconId>)

  /** The enabled scenes, in build order: the Where filter of UpdateSceneList. */
  function EnabledScenes(scenes: seq<BuildScene>): (r: seq<BuildScene>)
    ensures |r| <= |scenes|
    ensures forall k :: 0 <= k < |r| ==> r[k].enabled && r[k] in scenes
    ensures forall s :: s in scenes && s.enabled ==> s in r
  {
    if scenes == [] then []
    else (if scenes[0].enabled then [scenes[0]] else []) + EnabledScenes(scenes[1..])
  }

  /** FirstOrDefault on the path: the position of the first entry for `path`. */
  function FirstWithPath(entries: seq<SceneEntry>, path: string): (r: Option<nat>)
    ensures r.Some? ==> r.value < |entries| && entries[r.value].path == path
    ensures r.Some? ==> forall k :: 0 <= k < r.value ==> entries[k].path != path
    ensures r.None? <==> forall k :: 0 <= k < |entries| ==> entries[k].path != path
  {
    if entries == [] then None
    else if entries[0].path == path then Some(0)
    else match FirstWithPath(entries[1..], path)
      case None => None
      case Some(i) => Some(i + 1)
  }

  /** The icon GetIcon gives for `path`: the first matching entry's icon when it has one, and the default otherwise. */
  function IconFor(entries: seq<SceneEntry>, defaultIcon: Option<IconId>, path: string): Option<IconId>
  {
    match FirstWithPath(entries, path)
    case Some(i) => if entries[i].icon.Some? then entries[i].icon else defaultIcon
    case None => defaultIcon
  }

  /**
   * The list UpdateSceneList builds: one entry per enabled scene, in build
   * order, carrying the icon the old list gives its path.
   */
  function Reconciled(entries: seq<SceneEntry>, defaultIcon: Option<IconId>, scenes: seq<BuildScene>): (r: seq<SceneEntry>)
    ensures var enabled := EnabledScenes(scenes);
            |r| == |enabled| && forall k :: 0 <= k < |r| ==> r[k].path == enabled[k].path
  {
    var enabled := EnabledScenes(scenes);
    seq(|enabled|, k requires 0 <= k < |enabled| => SceneEntry(enabled[k].path, IconFor(entries, defaultIcon, enabled[k].path)))
  }

  /**
   * Reconciling keeps every icon as GetIcon sees it: a path of an enabled
   * scene gets the icon it had, whether that was a custom icon or the
   * default, and any other path, dropped or never there, gets the default.
   */
  lemma ReconciledKeepsIcons(entries: seq<SceneEntry>, defaultIcon: Option<IconId>, scenes: seq<BuildScene>, path: string)
    ensures IconFor(Reconciled(entries, defaultIcon, scenes), defaultIcon, path)
            == if exists s :: s in scenes && s.enabled && s.path == path then IconFor(entries, defaultIcon, path) else defaultIcon
  {
    var enabled := EnabledScenes(scenes);
    var r := Reconciled(entries, defaultIcon, scenes);
    if exists s :: s in scenes && s.enabled && s.path == path {
      var s :| s in scenes && s.enabled && s.path == path;
      assert s in enabled;
      var k :| 0 <= k < |enabled| && enabled[k] == s;
      assert r[k].path == path;
      var i := FirstWithPath(r, path).value;
      assert r[i] == SceneEntry(enabled[i].path, IconFor(entries, defaultIcon, enabled[i].path));
    } else {
      forall k | 0 <= k < |r|
        ensures r[k].path != path
      {
        assert enabled[k] in scenes && enabled[k].enabled;
      }
    }
  }

  /** A scene path no enabled scene has is absent from the reconciled list. */
  lemma ReconciledDropsDisabled(entries: seq<SceneEntry>, defaultIcon: Option<IconId>, scenes: seq<BuildScene>, path: string)
    requires forall s :: s in scenes && s.path == path ==> !s.enabled
    ensures FirstWithPath(Reconciled(entries, defaultIcon, scenes), path).None?
  {
    var enabled := EnabledScenes(scenes);
    var r := Reconciled(entries, defaultIcon, scenes);
    forall k | 0 <= k < |r|
      ensures r[k].path != path
    {
      assert enabled[k] in scenes && enabled[k].enabled;
    }
  }

  class SceneIconDatabase {
    var defaultIcon: Option<IconId>
    var buildScenes: seq<SceneEntry>

    constructor (defaultIcon: Option<IconId>)
      ensures this.defaultIcon == defaultIcon && buildScenes == []
    {
      this.defaultIcon := defaultIcon;
      buildScenes := [];
    }

    /**
     * GetIcon: the icon of the first entry for the path when that entry
     * has one; the default when it has none or there is no entry.
     */
    function GetIcon(path: string): (r: Option<IconId>)
      reads this
      ensures FirstWithPath(buildScenes, path).None? ==> r == defaultIcon
      ensures FirstWithPath(buildScenes, path).Some? && buildScenes[FirstWithPath(buildScenes, path).value].icon.None?
              ==> r == defaultIcon
      ensures forall k ::
                (0 <= k < |buildScenes| && buildScenes[k].path == path && buildScenes[k].icon.Some?
                 && forall j :: 0 <= j < k ==> buildScenes[j].path != path) ==> r == buildScenes[k].icon
      ensures r != defaultIcon ==> exists k :: 0 <= k < |buildScenes| && buildScenes[k].path == path && r == buildScenes[k].icon
    {
      IconFor(buildScenes, defaultIcon, path)
    }

    /**
     * UpdateSceneList: a new list with one entry per enabled scene, each
     * with the icon the old list gives its path, replaces the old one.
     */
    method UpdateSceneList(scenes: seq<BuildScene>)
      modifies this
      ensures buildScenes == Reconciled(old(buildScenes), defaultIcon, scenes)
      ensures defaultIcon == old(defaultIcon)
    {
      var enabled := EnabledScenes(scenes);
      var newList := [];
      for i := 0 to |enabled|
        invariant |newList| == i
        invariant forall k :: 0 <= k < i ==> newList[k] == SceneEntry(enabled[k].path, GetIcon(enabled[k].path))
      {
        var found := FirstWithPath(buildScenes, enabled[i].path);
        var iconToUse := if found.Some? && buildScenes[found.value].icon.Some? then buildScenes[found.value].icon else defaultIcon;
        newList := newList + [SceneEntry(enabled[i].path, iconToUse)];
      }
      buildScenes := newList;
    }
  }
}

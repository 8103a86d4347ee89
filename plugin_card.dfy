/**
 * The server plugin card (`ServerPluginCard` and `PluginVersion`): reading
 * the plugin id and version out of a jar's file name, the version label,
 * when an update is offered, and what the delete, re-download and update
 * actions report and invalidate once they settle.
 */
module PluginCard {
  import opened Wrappers
  import opened Strings

  /** The file name with its first `.jar` removed, wherever it is; the rest is kept. */
  function StripJar(filename: string): (s: string)
    ensures IndexOf(filename, ".jar", 0) < 0 ==> s == filename
    ensures IndexOf(filename, ".jar", 0) >= 0 ==>
              var i := IndexOf(filename, ".jar", 0);
              s == filename[..i] + filename[i + 4..]
  {
    ReplaceFirst(filename, ".jar", "")
  }

  /** A MindustryTool plugin, as its file name names it. */
  datatype Plugin = Plugin(id: string, version: string)

  /**
   * The file name without its first `.jar`, cut at every `_`, read as a MindustryTool
   * plugin exactly when it gives two parts: the id, then the version.
   */
  function ParseFilename(filename: string): (r: Option<Plugin>)
    ensures r.Some? <==> Count(StripJar(filename), '_') == 1
    ensures r.Some? ==> Join([r.value.id, r.value.version], '_') == StripJar(filename)
  {
    var parts := Split(StripJar(filename), {'_'});
    SplitCount(StripJar(filename), '_');
    SplitJoin(StripJar(filename), '_');
    if |parts| == 2 then Some(Plugin(parts[0], parts[1])) else None
  }

  /** No `.jar` occurs in `s`. */
  predicate NoJar(s: string)
  {
    forall q :: 0 <= q < |s| ==> !OccursAt(s, ".jar", q)
  }

  /** Neither `_` nor `.jar` occurs in `s`. */
  predicate Plain(s: string)
  {
    && (forall j :: 0 <= j < |s| ==> s[j] != '_')
    && NoJar(s)
  }

  /** In a name without `.jar` followed by `.jar`, the first `.jar` is the one right after the name. */
  lemma {:induction false} FirstJarAfter(name: string, rest: string)
    requires NoJar(name)
    ensures StripJar(name + ".jar" + rest) == name + rest
  {
    var f := name + ".jar" + rest;
    var p := |name|;
    assert f[p..p + 4] == ".jar";
    forall q | 0 <= q < p
      ensures !OccursAt(f, ".jar", q)
    {
      if q + 4 <= p {
        assert name[q..q + 4] == f[q..q + 4];
        assert !OccursAt(name, ".jar", q);
      } else if q + 4 <= |f| {
        assert f[q..q + 4][p - q] == f[p] == '.';
      }
    }
    IndexOfIs(f, ".jar", 0, p);
    assert f[..p] == name && f[p + 4..] == rest;
  }

  /** An id and a version without `.jar`, joined by `_`, hold no `.jar` either. */
  lemma {:induction false} JoinedNoJar(id: string, version: string)
    requires Plain(id) && Plain(version)
    ensures NoJar(id + "_" + version)
  {
    var name := id + "_" + version;
    forall q | 0 <= q < |name|
      ensures !OccursAt(name, ".jar", q)
    {
      if q + 4 <= |name| {
        var w := name[q..q + 4];
        if q + 4 <= |id| {
          assert id[q..q + 4] == w;
          assert !OccursAt(id, ".jar", q);
        } else if q > |id| {
          assert version[q - |id| - 1..q - |id| + 3] == w;
          assert !OccursAt(version, ".jar", q - |id| - 1);
        } else {
          assert w[|id| - q] == name[|id|] == '_';
        }
      }
    }
  }

  /**
   * `id_version.jar`, with more text after the `.jar`, gives back the id and
   * the version with that text appended: only the first `.jar` is removed.
   */
  lemma {:induction false} ParseFilenameFirstJar(id: string, version: string, rest: string)
    requires Plain(id) && Plain(version)
    requires forall j :: 0 <= j < |rest| ==> rest[j] != '_'
    ensures ParseFilename(id + "_" + version + ".jar" + rest) == Some(Plugin(id, version + rest))
  {
    var name := id + "_" + version;
    JoinedNoJar(id, version);
    FirstJarAfter(name, rest);
    assert name + rest == id + ['_'] + (version + rest);
    SplitAtFirst(id, '_', version + rest, {'_'});
    SplitNoSeparator(version + rest, {'_'});
  }

  /** `id_version.jar` parses back to its id and version. */
  lemma {:induction false} ParseFilenameRoundTrip(id: string, version: string)
    requires Plain(id) && Plain(version)
    ensures ParseFilename(id + "_" + version + ".jar") == Some(Plugin(id, version))
  {
    ParseFilenameFirstJar(id, version, "");
    assert id + "_" + version + ".jar" + "" == id + "_" + version + ".jar";
    assert version + "" == version;
  }

  /** A name with no `_`, or with more than one, is not a MindustryTool plugin. */
  lemma {:induction false} NotPluginWithoutOneUnderscore(filename: string)
    requires Count(StripJar(filename), '_') != 1
    ensures ParseFilename(filename) == None
  {
  }

  /** The version label: the version with a `v` in front unless it already starts with one. */
  function VersionLabel(version: string): (shown: string)
    ensures StartsWith(shown, "v")
    ensures |version| <= |shown| <= |version| + 1 && shown[|shown| - |version|..] == version
  {
    if StartsWith(version, "v") then version else "v" + version
  }

  /** Labelling is idempotent: a label is its own label, so a `v`-prefixed version is shown unchanged. */
  lemma {:induction false} VersionLabelIdempotent(version: string)
    ensures VersionLabel(VersionLabel(version)) == VersionLabel(version)
    ensures StartsWith(version, "v") ==> VersionLabel(version) == version
  {
  }

  /** `new Date(...).getTime()`: milliseconds, or `NaN` for an invalid date. */
  datatype Time = Valid(ms: int) | NaN

  /** `a !== b` on two `getTime()` results: `NaN` differs from everything, itself included. */
  predicate Differs(a: Time, b: Time)
  {
    a.NaN? || b.NaN? || a.ms != b.ms
  }

  /**
   * Whether `PluginVersion` offers an update: not while the latest version
   * is being fetched, only once it is known (`latest`), and only when its
   * time differs from the installed version's (`installed`).
   */
  function UpdateOffered(isFetching: bool, installed: Time, latest: Option<Time>): (offered: bool)
    ensures offered <==> !isFetching && latest.Some? && Differs(installed, latest.value)
  {
    if isFetching then false
    else latest.Some? && Differs(installed, latest.value)
  }

  /** Two valid equal times never offer an update; an invalid time always does once the latest is known. */
  lemma {:induction false} UpdateOfferedCases(isFetching: bool, installed: Time, latest: Time)
    ensures installed.Valid? && latest.Valid? && installed.ms == latest.ms ==> !UpdateOffered(isFetching, installed, Some(latest))
    ensures (installed.NaN? || latest.NaN?) ==> UpdateOffered(isFetching, installed, Some(latest)) == !isFetching
    ensures !UpdateOffered(isFetching, installed, None)
  {
  }

  /** How a mutation's request settled. */
  datatype Outcome = Succeeded | Failed

  /** A toast, by its translation key. */
  datatype Toast = SuccessToast(key: string) | ErrorToast(key: string)

  /** What a settled mutation shows and which query keys it invalidates. */
  datatype Settled = Settled(toast: Toast, invalidated: seq<seq<string>>)

  /** The delete mutation of the card once settled: a toast for the outcome, and the same two keys invalidated either way. */
  function DeleteSettled(serverId: string, outcome: Outcome): (s: Settled)
    ensures s.toast.SuccessToast? <==> outcome.Succeeded?
    ensures s.invalidated == [["server", serverId, "plugins"], ["server", serverId, "plugin-version"]]
  {
    Settled(
      if outcome.Succeeded? then SuccessToast("delete-success") else ErrorToast("delete-fail"),
      [["server", serverId, "plugins"], ["server", serverId, "plugin-version"]])
  }

  /** Deleting invalidates the plugin list and the plugin versions of the server, whether it succeeds or fails. */
  lemma {:induction false} DeleteInvalidatesBoth(serverId: string)
    ensures DeleteSettled(serverId, Succeeded).invalidated == DeleteSettled(serverId, Failed).invalidated
                == [["server", serverId, "plugins"], ["server", serverId, "plugin-version"]]
  {
  }

  /** The re-download mutation once settled. */
  function RedownloadSettled(serverId: string, outcome: Outcome): (s: Settled)
    ensures s.toast.SuccessToast? <==> outcome.Succeeded?
    ensures s.invalidated == [["server", serverId, "plugin"], ["server", serverId, "plugin-version"]]
  {
    Settled(
      if outcome.Succeeded? then SuccessToast("server.add-plugin-success") else ErrorToast("server.add-plugin-fail"),
      [["server", serverId, "plugin"], ["server", serverId, "plugin-version"]])
  }

  /**
   * The update mutation of `PluginVersion` once settled: it waits for both
   * the install and the delete with `Promise.allSettled`, which never
   * rejects, so it reports success whatever either request did.
   */
  function UpdateSettled(serverId: string, install: Outcome, delete: Outcome): (s: Settled)
    ensures s.toast == SuccessToast("server.add-plugin-success")
    ensures s.invalidated == RedownloadSettled(serverId, install).invalidated
  {
    RedownloadSettled(serverId, Succeeded)
  }

  /** As written, an update whose install and delete both failed still shows the success toast. */
  lemma {:induction false} UpdateIgnoresFailures(serverId: string)
    ensures UpdateSettled(serverId, Failed, Failed).toast.SuccessToast?
    ensures RedownloadSettled(serverId, Failed).toast.ErrorToast?
  {
  }

  /** The update as evidently intended: the success toast only when both the install and the delete succeeded. */
  function UpdateSettledChecked(serverId: string, install: Outcome, delete: Outcome): (s: Settled)
    ensures s.toast.SuccessToast? <==> install.Succeeded? && delete.Succeeded?
    ensures s.invalidated == RedownloadSettled(serverId, install).invalidated
  {
    RedownloadSettled(serverId, if install.Succeeded? && delete.Succeeded? then Succeeded else Failed)
  }

  /** The intended update agrees with the written one exactly when nothing failed. */
  lemma {:induction false} UpdateCheckedAgreesOnSuccess(serverId: string, install: Outcome, delete: Outcome)
    ensures UpdateSettledChecked(serverId, install, delete) == UpdateSettled(serverId, install, delete)
            <==> install.Succeeded? && delete.Succeeded?
  {
    if !(install.Succeeded? && delete.Succeeded?) {
      assert UpdateSettledChecked(serverId, install, delete).toast != UpdateSettled(serverId, install, delete).toast;
    }
  }
}

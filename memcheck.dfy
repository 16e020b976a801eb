/** The Memcheck analyzer settings: the options shared by the global and the
    per-project settings, the global list of suppression files, and a project's
    overlay on that list (files it adds and global files it disables). Settings
    are stored as a `QVariantMap`, modelled as a map from keys to `Value`s. */
module Memcheck {
  import Decimal

  /** The `QVariant`s the settings store. */
  datatype Value =
    | IntValue(i: int)
    | BoolValue(b: bool)
    | StringValue(s: string)
    | ListValue(items: seq<Value>)
    | StringListValue(strings: seq<string>)

  const NumCallersKey := "Analyzer.Valgrind.NumCallers"
  const TrackOriginsKey := "Analyzer.Valgrind.TrackOrigins"
  const SuppressionFilesKey := "Analyzer.Valgrind.SupressionFiles"
  const RemovedSuppressionFilesKey := "Analyzer.Valgrind.RemovedSuppressionFiles"
  const AddedSuppressionFilesKey := "Analyzer.Valgrind.AddedSuppressionFiles"
  const FilterExternalIssuesKey := "Analyzer.Valgrind.FilterExternalIssues"
  const VisibleErrorKindsKey := "Analyzer.Valgrind.VisibleErrorKinds"
  const LastSuppressionDirectoryKey := "Analyzer.Valgrind.LastSuppressionDirectory"
  const LastSuppressionHistoryKey := "Analyzer.Valgrind.LastSuppressionHistory"

  /** The number of Memcheck error kinds (`InvalidFree` up to `Leak_IndirectlyLost`). */
  const MemcheckErrorKindCount := 15

  // ---------------------------------------------------------------------------
  // Variant conversions

  /** `QVariant::toInt()` / `value<int>()`; other kinds convert to 0. */
  function ToInt(v: Value): int
  {
    match v
    case IntValue(i) => i
    case BoolValue(b) => if b then 1 else 0
    case _ => 0
  }

  /** `QVariant::value<bool>()`: a non-zero number is true. */
  function ToBool(v: Value): bool
  {
    match v
    case BoolValue(b) => b
    case IntValue(i) => i != 0
    case _ => false
  }

  /** `QVariant::toString()`. */
  function ToStr(v: Value): string
  {
    match v
    case StringValue(s) => s
    case IntValue(i) => Decimal.IntText(i)
    case BoolValue(b) => if b then "true" else "false"
    case _ => ""
  }

  /** `QVariant::toList()`: a list, or nothing. */
  function ToList(v: Value): seq<Value>
  {
    match v
    case ListValue(items) => items
    case _ => []
  }

  /** `QVariant::toStringList()`. */
  function ToStringList(v: Value): seq<string>
  {
    match v
    case StringListValue(ss) => ss
    case StringValue(s) => [s]
    case ListValue(items) => seq(|items|, k requires 0 <= k < |items| => ToStr(items[k]))
    case _ => []
  }

  function IntsOf(vs: seq<Value>): seq<int>
  {
    seq(|vs|, k requires 0 <= k < |vs| => ToInt(vs[k]))
  }

  function IntValues(xs: seq<int>): seq<Value>
  {
    seq(|xs|, k requires 0 <= k < |xs| => IntValue(xs[k]))
  }

  /** `map.value(key)`: a missing key reads as an invalid variant. */
  function Lookup(m: map<string, Value>, key: string): Value
  {
    if key in m then m[key] else ListValue([])
  }

  // ---------------------------------------------------------------------------
  // The options shared by global and project settings

  datatype Common = Common(numCallers: int, trackOrigins: bool, filterExternalIssues: bool,
                           visibleErrorKinds: seq<int>)

  /** The shared options after `fromMap`: `setIfPresent` for the three scalars, and
      the error kinds replaced only when their key is present. */
  function LoadCommon(c: Common, m: map<string, Value>): Common
  {
    Common(if NumCallersKey in m then ToInt(m[NumCallersKey]) else c.numCallers,
           if TrackOriginsKey in m then ToBool(m[TrackOriginsKey]) else c.trackOrigins,
           if FilterExternalIssuesKey in m then ToBool(m[FilterExternalIssuesKey]) else c.filterExternalIssues,
           if VisibleErrorKindsKey in m then IntsOf(ToList(m[VisibleErrorKindsKey])) else c.visibleErrorKinds)
  }

  /** The map `toMap` builds from the shared options. */
  function SaveCommon(c: Common): map<string, Value>
  {
    map[NumCallersKey := IntValue(c.numCallers),
        TrackOriginsKey := BoolValue(c.trackOrigins),
        FilterExternalIssuesKey := BoolValue(c.filterExternalIssues),
        VisibleErrorKindsKey := ListValue(IntValues(c.visibleErrorKinds))]
  }

  /** `AbstractMemcheckSettings::defaults()`. */
  function DefaultCommonMap(): map<string, Value>
  {
    map[NumCallersKey := IntValue(25),
        TrackOriginsKey := BoolValue(true),
        FilterExternalIssuesKey := BoolValue(true),
        VisibleErrorKindsKey := ListValue(IntValues(seq(MemcheckErrorKindCount, k => k)))]
  }

  /** Saving and loading the shared options gives them back, whatever they were before. */
  lemma CommonRoundTrip(c: Common, before: Common)
    ensures LoadCommon(before, SaveCommon(c)) == c
  {
    assert IntsOf(IntValues(c.visibleErrorKinds)) == c.visibleErrorKinds;
  }

  /** Loading the defaults: 25 callers, origins tracked, external issues filtered,
      every error kind visible. */
  lemma CommonDefaults(before: Common)
    ensures LoadCommon(before, DefaultCommonMap())
         == Common(25, true, true, seq(MemcheckErrorKindCount, k => k))
  {
    assert IntsOf(IntValues(seq(MemcheckErrorKindCount, k => k))) == seq(MemcheckErrorKindCount, k => k);
  }

  /** A map without the shared keys leaves the shared options as they are. */
  lemma CommonAbsentKeys(c: Common, m: map<string, Value>)
    requires NumCallersKey !in m && TrackOriginsKey !in m
    requires FilterExternalIssuesKey !in m && VisibleErrorKindsKey !in m
    ensures LoadCommon(c, m) == c
  {
  }

  class AbstractMemcheckSettings {
    var numCallers: int
    var trackOrigins: bool
    var filterExternalIssues: bool
    var visibleErrorKinds: seq<int>

    function State(): Common
      reads this
    {
      Common(numCallers, trackOrigins, filterExternalIssues, visibleErrorKinds)
    }

    constructor (c: Common)
      ensures State() == c
    {
      numCallers := c.numCallers;
      trackOrigins := c.trackOrigins;
      filterExternalIssues := c.filterExternalIssues;
      visibleErrorKinds := c.visibleErrorKinds;
    }

    /** `setNumCallers`: `changed` says whether `numCallersChanged` is emitted, which
        happens exactly when the value differs. */
    method SetNumCallers(n: int) returns (changed: bool)
      modifies this
      ensures changed == (old(numCallers) != n)
      ensures State() == old(State()).(numCallers := n)
    {
      changed := numCallers != n;
      if changed {
        numCallers := n;
      }
    }

    method SetTrackOrigins(b: bool) returns (changed: bool)
      modifies this
      ensures changed == (old(trackOrigins) != b)
      ensures State() == old(State()).(trackOrigins := b)
    {
      changed := trackOrigins != b;
      if changed {
        trackOrigins := b;
      }
    }

    method SetFilterExternalIssues(b: bool) returns (changed: bool)
      modifies this
      ensures changed == (old(filterExternalIssues) != b)
      ensures State() == old(State()).(filterExternalIssues := b)
    {
      changed := filterExternalIssues != b;
      if changed {
        filterExternalIssues := b;
      }
    }

    method SetVisibleErrorKinds(kinds: seq<int>) returns (changed: bool)
      modifies this
      ensures changed == (old(visibleErrorKinds) != kinds)
      ensures State() == old(State()).(visibleErrorKinds := kinds)
    {
      changed := visibleErrorKinds != kinds;
      if changed {
        visibleErrorKinds := kinds;
      }
    }

    /** `fromMap`: the fields whose keys are present are replaced; it always succeeds. */
    method FromMap(m: map<string, Value>) returns (ok: bool)
      modifies this
      ensures ok && State() == LoadCommon(old(State()), m)
    {
      if NumCallersKey in m {
        numCallers := ToInt(m[NumCallersKey]);
      }
      if TrackOriginsKey in m {
        trackOrigins := ToBool(m[TrackOriginsKey]);
      }
      if FilterExternalIssuesKey in m {
        filterExternalIssues := ToBool(m[FilterExternalIssuesKey]);
      }
      if VisibleErrorKindsKey in m {
        LoadErrorKinds(ToList(m[VisibleErrorKindsKey]));
      }
      ok := true;
    }

    /** The error kinds read from a stored list: cleared, then each value appended. */
    method LoadErrorKinds(vals: seq<Value>)
      modifies this
      ensures State() == old(State()).(visibleErrorKinds := IntsOf(vals))
    {
      visibleErrorKinds := [];
      ghost var cleared := State();
      for k := 0 to |vals|
        invariant State() == cleared.(visibleErrorKinds := IntsOf(vals[..k]))
      {
        visibleErrorKinds := visibleErrorKinds + [ToInt(vals[k])];
      }
      assert vals[..|vals|] == vals;
    }

    /** `toMap`: a fresh map of the shared options; the settings do not change. */
    method ToMap() returns (m: map<string, Value>)
      ensures m == SaveCommon(State())
    {
      var kinds: seq<Value> := [];
      for k := 0 to |visibleErrorKinds|
        invariant kinds == IntValues(visibleErrorKinds[..k])
      {
        kinds := kinds + [IntValue(visibleErrorKinds[k])];
      }
      assert visibleErrorKinds[..|visibleErrorKinds|] == visibleErrorKinds;
      m := map[NumCallersKey := IntValue(numCallers),
               TrackOriginsKey := BoolValue(trackOrigins),
               FilterExternalIssuesKey := BoolValue(filterExternalIssues),
               VisibleErrorKindsKey := ListValue(kinds)];
    }
  }

  // ---------------------------------------------------------------------------
  // List algebra

  predicate NoDuplicates(xs: seq<string>)
  {
    forall i, j :: 0 <= i < j < |xs| ==> xs[i] != xs[j]
  }

  /** `QStringList::removeAll(s)`. */
  function RemoveAll(xs: seq<string>, s: string): (r: seq<string>)
    ensures forall x :: x in r <==> x in xs && x != s
    ensures |r| <= |xs|
  {
    if xs == [] then []
    else if xs[0] == s then RemoveAll(xs[1..], s)
    else [xs[0]] + RemoveAll(xs[1..], s)
  }

  /** The entries of `xs` that are not in `ss`, in their order. */
  function Without(xs: seq<string>, ss: seq<string>): seq<string>
  {
    if xs == [] then []
    else if xs[0] in ss then Without(xs[1..], ss)
    else [xs[0]] + Without(xs[1..], ss)
  }

  /** Removing the files one at a time is removing them all at once. */
  lemma {:induction false} RemoveAllWithout(xs: seq<string>, ss: seq<string>, s: string)
    ensures RemoveAll(Without(xs, ss), s) == Without(xs, ss + [s])
  {
    if xs != [] {
      RemoveAllWithout(xs[1..], ss, s);
    }
  }

  lemma {:induction false} WithoutMembers(xs: seq<string>, ss: seq<string>)
    ensures forall x :: x in Without(xs, ss) <==> x in xs && x !in ss
  {
    if xs != [] {
      WithoutMembers(xs[1..], ss);
      assert xs == [xs[0]] + xs[1..];
    }
  }

  lemma {:induction false} WithoutKeepsDistinct(xs: seq<string>, ss: seq<string>)
    requires NoDuplicates(xs)
    ensures NoDuplicates(Without(xs, ss))
  {
    if xs != [] {
      WithoutKeepsDistinct(xs[1..], ss);
      WithoutMembers(xs[1..], ss);
      var r := Without(xs, ss);
      if xs[0] !in ss {
        assert xs[0] !in xs[1..];
        assert r == [xs[0]] + Without(xs[1..], ss);
      }
    }
  }

  /** The global `addSuppressionFiles`: each file not yet in the list is appended. */
  function AppendNew(xs: seq<string>, ss: seq<string>): seq<string>
  {
    if ss == [] then xs
    else
      var r := AppendNew(xs, ss[..|ss| - 1]);
      if ss[|ss| - 1] in r then r else r + [ss[|ss| - 1]]
  }

  /** Adding keeps the existing entries in place, introduces no duplicate, and
      afterwards a file is listed exactly when it was listed or added. */
  lemma {:induction false} AppendNewSpec(xs: seq<string>, ss: seq<string>)
    ensures |AppendNew(xs, ss)| >= |xs| && AppendNew(xs, ss)[..|xs|] == xs
    ensures forall x :: x in AppendNew(xs, ss) <==> x in xs || x in ss
    ensures NoDuplicates(xs) ==> NoDuplicates(AppendNew(xs, ss))
  {
    if ss != [] {
      var init := ss[..|ss| - 1];
      AppendNewSpec(xs, init);
      assert ss == init + [ss[|ss| - 1]];
    }
  }

  /** The global settings: the shared options and the suppression files. */
  class MemcheckGlobalSettings {
    const base: AbstractMemcheckSettings
    var suppressionFiles: seq<string>
    var lastSuppressionDirectory: string
    var lastSuppressionHistory: seq<string>

    constructor (c: Common)
      ensures base.State() == c && suppressionFiles == []
      ensures lastSuppressionDirectory == [] && lastSuppressionHistory == []
    {
      base := new AbstractMemcheckSettings(c);
      suppressionFiles := [];
      lastSuppressionDirectory := [];
      lastSuppressionHistory := [];
    }

    /** `addSuppressionFiles`. */
    method AddSuppressionFiles(ss: seq<string>)
      modifies this
      ensures suppressionFiles == AppendNew(old(suppressionFiles), ss)
      ensures lastSuppressionDirectory == old(lastSuppressionDirectory)
      ensures lastSuppressionHistory == old(lastSuppressionHistory)
    {
      for k := 0 to |ss|
        invariant suppressionFiles == AppendNew(old(suppressionFiles), ss[..k])
        invariant lastSuppressionDirectory == old(lastSuppressionDirectory)
        invariant lastSuppressionHistory == old(lastSuppressionHistory)
      {
        assert ss[..k + 1][..k] == ss[..k];
        if ss[k] !in suppressionFiles {
          suppressionFiles := suppressionFiles + [ss[k]];
        }
      }
      assert ss[..|ss|] == ss;
    }

    /** `removeSuppressionFiles`: every occurrence of every given file goes, the
        other entries keep their order. */
    method RemoveSuppressionFiles(ss: seq<string>)
      modifies this
      ensures suppressionFiles == Without(old(suppressionFiles), ss)
      ensures lastSuppressionDirectory == old(lastSuppressionDirectory)
      ensures lastSuppressionHistory == old(lastSuppressionHistory)
    {
      WithoutNothing(suppressionFiles);
      for k := 0 to |ss|
        invariant suppressionFiles == Without(old(suppressionFiles), ss[..k])
        invariant lastSuppressionDirectory == old(lastSuppressionDirectory)
        invariant lastSuppressionHistory == old(lastSuppressionHistory)
      {
        RemoveAllWithout(old(suppressionFiles), ss[..k], ss[k]);
        assert ss[..k] + [ss[k]] == ss[..k + 1];
        suppressionFiles := RemoveAll(suppressionFiles, ss[k]);
      }
      assert ss[..|ss|] == ss;
    }

    /** `fromMap`: the shared options as `setIfPresent` loads them; the file list,
        directory and history are replaced, by empty values when their keys are missing. */
    method FromMap(m: map<string, Value>) returns (ok: bool)
      modifies this, base
      ensures ok && base.State() == LoadCommon(old(base.State()), m)
      ensures suppressionFiles == ToStringList(Lookup(m, SuppressionFilesKey))
      ensures lastSuppressionDirectory == ToStr(Lookup(m, LastSuppressionDirectoryKey))
      ensures lastSuppressionHistory == ToStringList(Lookup(m, LastSuppressionHistoryKey))
    {
      ok := base.FromMap(m);
      suppressionFiles := ToStringList(Lookup(m, SuppressionFilesKey));
      lastSuppressionDirectory := ToStr(Lookup(m, LastSuppressionDirectoryKey));
      lastSuppressionHistory := ToStringList(Lookup(m, LastSuppressionHistoryKey));
      ok := true;
    }

    /** `setLastSuppressionDialogDirectory`: only the directory changes. */
    method SetLastSuppressionDialogDirectory(directory: string)
      modifies this
      ensures lastSuppressionDirectory == directory
      ensures suppressionFiles == old(suppressionFiles) && lastSuppressionHistory == old(lastSuppressionHistory)
    {
      lastSuppressionDirectory := directory;
    }

    /** `setLastSuppressionDialogHistory`: only the history changes. */
    method SetLastSuppressionDialogHistory(history: seq<string>)
      modifies this
      ensures lastSuppressionHistory == history
      ensures suppressionFiles == old(suppressionFiles) && lastSuppressionDirectory == old(lastSuppressionDirectory)
    {
      lastSuppressionHistory := history;
    }

    /** `toMap`. */
    method ToMap() returns (m: map<string, Value>)
      ensures m == SaveGlobal(base.State(), suppressionFiles, lastSuppressionDirectory, lastSuppressionHistory)
    {
      m := base.ToMap();
      m := m[SuppressionFilesKey := StringListValue(suppressionFiles)];
      m := m[LastSuppressionDirectoryKey := StringValue(lastSuppressionDirectory)];
      m := m[LastSuppressionHistoryKey := StringListValue(lastSuppressionHistory)];
    }
  }

  lemma WithoutNothing(xs: seq<string>)
    ensures Without(xs, []) == xs
  {
  }

  function SaveGlobal(c: Common, files: seq<string>, dir: string, history: seq<string>): map<string, Value>
  {
    SaveCommon(c)[SuppressionFilesKey := StringListValue(files)]
                 [LastSuppressionDirectoryKey := StringValue(dir)]
                 [LastSuppressionHistoryKey := StringListValue(history)]
  }

  /** `MemcheckGlobalSettings::defaults()`. */
  function DefaultGlobalMap(): map<string, Value>
  {
    SaveGlobal(Common(25, true, true, seq(MemcheckErrorKindCount, k => k)), [], [], [])
  }

  /** The global map round trip: what `toMap` saved, `fromMap` restores. */
  lemma GlobalRoundTrip(c: Common, files: seq<string>, dir: string, history: seq<string>, before: Common)
    ensures var m := SaveGlobal(c, files, dir, history);
      && LoadCommon(before, m) == c
      && ToStringList(Lookup(m, SuppressionFilesKey)) == files
      && ToStr(Lookup(m, LastSuppressionDirectoryKey)) == dir
      && ToStringList(Lookup(m, LastSuppressionHistoryKey)) == history
  {
    CommonRoundTrip(c, before);
    assert IntsOf(IntValues(c.visibleErrorKinds)) == c.visibleErrorKinds;
  }

  /** Global settings loaded from the defaults: the default options, no suppression
      files, no remembered directory and an empty history. */
  lemma GlobalDefaults(before: Common)
    ensures var m := DefaultGlobalMap();
      && LoadCommon(before, m) == Common(25, true, true, seq(MemcheckErrorKindCount, k => k))
      && ToStringList(Lookup(m, SuppressionFilesKey)) == []
      && ToStr(Lookup(m, LastSuppressionDirectoryKey)) == []
      && ToStringList(Lookup(m, LastSuppressionHistoryKey)) == []
  {
    GlobalRoundTrip(Common(25, true, true, seq(MemcheckErrorKindCount, k => k)), [], [], [], before);
  }

  // ---------------------------------------------------------------------------
  // The project overlay

  /** A project's additions to the global list and the global files it disables. */
  datatype Overlay = Overlay(added: seq<string>, disabled: seq<string>)

  /** `MemcheckProjectSettings::suppressionFiles()`: the enabled global files, then
      the project's own. */
  function Effective(global: seq<string>, o: Overlay): seq<string>
  {
    Without(global, o.disabled) + o.added
  }

  /** One file of the project's `addSuppressionFiles`. */
  function AddOne(global: seq<string>, o: Overlay, s: string): Overlay
  {
    if s in o.added then o
    else
      var disabled := RemoveAll(o.disabled, s);
      Overlay(if s !in global then o.added + [s] else o.added, disabled)
  }

  /** One file of the project's `removeSuppressionFiles`. */
  function RemoveOne(global: seq<string>, o: Overlay, s: string): Overlay
  {
    Overlay(RemoveAll(o.added, s), if s in global then o.disabled + [s] else o.disabled)
  }

  function AddAll(global: seq<string>, o: Overlay, ss: seq<string>): Overlay
  {
    if ss == [] then o else AddOne(global, AddAll(global, o, ss[..|ss| - 1]), ss[|ss| - 1])
  }

  function RemoveEvery(global: seq<string>, o: Overlay, ss: seq<string>): Overlay
  {
    if ss == [] then o else RemoveOne(global, RemoveEvery(global, o, ss[..|ss| - 1]), ss[|ss| - 1])
  }

  lemma EffectiveMembers(global: seq<string>, o: Overlay)
    ensures forall x :: x in Effective(global, o) <==> (x in global && x !in o.disabled) || x in o.added
  {
    WithoutMembers(global, o.disabled);
  }

  /** Adding one file makes it effective and leaves every other file as it was. */
  lemma AddOneEffect(global: seq<string>, o: Overlay, s: string)
    ensures forall x :: x in Effective(global, AddOne(global, o, s)) <==> x == s || x in Effective(global, o)
  {
    EffectiveMembers(global, o);
    EffectiveMembers(global, AddOne(global, o, s));
  }

  /** Removing one file makes it ineffective and leaves every other file as it was. */
  lemma RemoveOneEffect(global: seq<string>, o: Overlay, s: string)
    ensures forall x :: x in Effective(global, RemoveOne(global, o, s)) <==> x != s && x in Effective(global, o)
  {
    EffectiveMembers(global, o);
    EffectiveMembers(global, RemoveOne(global, o, s));
  }

  /** After the project's `addSuppressionFiles`, a file is in effect exactly when
      it was before or was just added. */
  lemma {:induction false} AddAllEffect(global: seq<string>, o: Overlay, ss: seq<string>)
    ensures forall x :: x in Effective(global, AddAll(global, o, ss)) <==> x in ss || x in Effective(global, o)
  {
    if ss != [] {
      var init := ss[..|ss| - 1];
      AddAllEffect(global, o, init);
      AddOneEffect(global, AddAll(global, o, init), ss[|ss| - 1]);
      assert ss == init + [ss[|ss| - 1]];
    }
  }

  /** After the project's `removeSuppressionFiles`, a file is in effect exactly when
      it was before and was not just removed. */
  lemma {:induction false} RemoveEveryEffect(global: seq<string>, o: Overlay, ss: seq<string>)
    ensures forall x :: x in Effective(global, RemoveEvery(global, o, ss)) <==> x !in ss && x in Effective(global, o)
  {
    if ss != [] {
      var init := ss[..|ss| - 1];
      RemoveEveryEffect(global, o, init);
      RemoveOneEffect(global, RemoveEvery(global, o, init), ss[|ss| - 1]);
      assert ss == init + [ss[|ss| - 1]];
    }
  }

  /** The project's own files are distinct and none of them is global. */
  predicate Separate(global: seq<string>, o: Overlay)
  {
    NoDuplicates(o.added) && forall x :: x in o.added ==> x !in global
  }

  lemma RemoveAllKeepsDistinct(xs: seq<string>, s: string)
    requires NoDuplicates(xs)
    ensures NoDuplicates(RemoveAll(xs, s))
  {
    if xs != [] {
      RemoveAllKeepsDistinct(xs[1..], s);
      assert xs[0] !in xs[1..];
    }
  }

  /** Adding and removing keep the project's files separate from the global list. */
  lemma {:induction false} OverlayStaysSeparate(global: seq<string>, o: Overlay, ss: seq<string>)
    requires Separate(global, o)
    ensures Separate(global, AddAll(global, o, ss))
    ensures Separate(global, RemoveEvery(global, o, ss))
  {
    if ss != [] {
      var init := ss[..|ss| - 1];
      OverlayStaysSeparate(global, o, init);
      RemoveAllKeepsDistinct(RemoveEvery(global, o, init).added, ss[|ss| - 1]);
    }
  }

  /** With separate project files and a global list without duplicates, the
      effective list has no duplicates either. */
  lemma EffectiveDistinct(global: seq<string>, o: Overlay)
    requires NoDuplicates(global) && Separate(global, o)
    ensures NoDuplicates(Effective(global, o))
  {
    var g := Without(global, o.disabled);
    WithoutKeepsDistinct(global, o.disabled);
    WithoutMembers(global, o.disabled);
    var e := g + o.added;
    forall i, j | 0 <= i < j < |e|
      ensures e[i] != e[j]
    {
      if j >= |g| && i < |g| {
        assert e[i] in global;
        assert e[j] in o.added;
      }
    }
  }

  /** The per-project settings: the shared options and the overlay. The global list
      is passed in where the source asks the global settings for it. */
  class MemcheckProjectSettings {
    const base: AbstractMemcheckSettings
    var addedSuppressionFiles: seq<string>
    var disabledGlobalSuppressionFiles: seq<string>

    function Layered(): Overlay
      reads this
    {
      Overlay(addedSuppressionFiles, disabledGlobalSuppressionFiles)
    }

    constructor (c: Common)
      ensures base.State() == c && addedSuppressionFiles == [] && disabledGlobalSuppressionFiles == []
    {
      base := new AbstractMemcheckSettings(c);
      addedSuppressionFiles := [];
      disabledGlobalSuppressionFiles := [];
    }

    /** `addSuppressionFiles`. */
    method AddSuppressionFiles(ss: seq<string>, global: seq<string>)
      modifies this
      ensures Layered() == AddAll(global, old(Layered()), ss)
    {
      for k := 0 to |ss|
        invariant Layered() == AddAll(global, old(Layered()), ss[..k])
      {
        assert ss[..k + 1][..k] == ss[..k];
        var s := ss[k];
        if s in addedSuppressionFiles {
          continue;
        }
        disabledGlobalSuppressionFiles := RemoveAll(disabledGlobalSuppressionFiles, s);
        if s !in global {
          addedSuppressionFiles := addedSuppressionFiles + [s];
        }
      }
      assert ss[..|ss|] == ss;
    }

    /** `removeSuppressionFiles`. */
    method RemoveSuppressionFiles(ss: seq<string>, global: seq<string>)
      modifies this
      ensures Layered() == RemoveEvery(global, old(Layered()), ss)
    {
      for k := 0 to |ss|
        invariant Layered() == RemoveEvery(global, old(Layered()), ss[..k])
      {
        assert ss[..k + 1][..k] == ss[..k];
        var s := ss[k];
        addedSuppressionFiles := RemoveAll(addedSuppressionFiles, s);
        if s in global {
          disabledGlobalSuppressionFiles := disabledGlobalSuppressionFiles + [s];
        }
      }
      assert ss[..|ss|] == ss;
    }

    /** `suppressionFiles()`: the global list with every disabled file removed, then
        the project's own files. */
    method SuppressionFiles(global: seq<string>) returns (files: seq<string>)
      ensures files == Effective(global, Layered())
      ensures forall x :: x in files <==> (x in global && x !in disabledGlobalSuppressionFiles)
                                          || x in addedSuppressionFiles
    {
      files := global;
      WithoutNothing(global);
      for k := 0 to |disabledGlobalSuppressionFiles|
        invariant files == Without(global, disabledGlobalSuppressionFiles[..k])
      {
        RemoveAllWithout(global, disabledGlobalSuppressionFiles[..k], disabledGlobalSuppressionFiles[k]);
        assert disabledGlobalSuppressionFiles[..k] + [disabledGlobalSuppressionFiles[k]]
            == disabledGlobalSuppressionFiles[..k + 1];
        files := RemoveAll(files, disabledGlobalSuppressionFiles[k]);
      }
      assert disabledGlobalSuppressionFiles[..|disabledGlobalSuppressionFiles|] == disabledGlobalSuppressionFiles;
      files := files + addedSuppressionFiles;
      EffectiveMembers(global, Layered());
    }

    /** `fromMap`: the shared options and both lists as `setIfPresent` loads them. */
    method FromMap(m: map<string, Value>) returns (ok: bool)
      modifies this, base
      ensures ok && base.State() == LoadCommon(old(base.State()), m)
      ensures Layered() == LoadOverlay(old(Layered()), m)
    {
      ok := base.FromMap(m);
      if AddedSuppressionFilesKey in m {
        addedSuppressionFiles := ToStringList(m[AddedSuppressionFilesKey]);
      }
      if RemovedSuppressionFilesKey in m {
        disabledGlobalSuppressionFiles := ToStringList(m[RemovedSuppressionFilesKey]);
      }
      ok := true;
    }

    /** `toMap`. */
    method ToMap() returns (m: map<string, Value>)
      ensures m == SaveProject(base.State(), Layered())
    {
      m := base.ToMap();
      m := m[AddedSuppressionFilesKey := StringListValue(addedSuppressionFiles)];
      m := m[RemovedSuppressionFilesKey := StringListValue(disabledGlobalSuppressionFiles)];
    }
  }

  function LoadOverlay(o: Overlay, m: map<string, Value>): Overlay
  {
    Overlay(if AddedSuppressionFilesKey in m then ToStringList(m[AddedSuppressionFilesKey]) else o.added,
            if RemovedSuppressionFilesKey in m then ToStringList(m[RemovedSuppressionFilesKey]) else o.disabled)
  }

  function SaveProject(c: Common, o: Overlay): map<string, Value>
  {
    SaveCommon(c)[AddedSuppressionFilesKey := StringListValue(o.added)]
                 [RemovedSuppressionFilesKey := StringListValue(o.disabled)]
  }

  /** `MemcheckProjectSettings::defaults()`. */
  function DefaultProjectMap(): map<string, Value>
  {
    SaveProject(Common(25, true, true, seq(MemcheckErrorKindCount, k => k)), Overlay([], []))
  }

  /** The project map round trip: what `toMap` saved, `fromMap` restores. */
  lemma ProjectRoundTrip(c: Common, o: Overlay, before: Common, o': Overlay)
    ensures LoadCommon(before, SaveProject(c, o)) == c
    ensures LoadOverlay(o', SaveProject(c, o)) == o
  {
    assert IntsOf(IntValues(c.visibleErrorKinds)) == c.visibleErrorKinds;
  }

  /** A project loaded from the defaults starts with no overlay and the default options. */
  lemma ProjectDefaults(before: Common, o: Overlay)
    ensures LoadCommon(before, DefaultProjectMap()) == Common(25, true, true, seq(MemcheckErrorKindCount, k => k))
    ensures LoadOverlay(o, DefaultProjectMap()) == Overlay([], [])
  {
    ProjectRoundTrip(Common(25, true, true, seq(MemcheckErrorKindCount, k => k)), Overlay([], []), before, o);
  }
}

/** The list of open images: `DeleteSelected` (src/utils.cpp:679-697),
    which closes the selected image, and `drop_callback`
    (src/utils.cpp:37-80), which opens the files dropped onto the window.
    `normalize_path` depends on the working directory and the platform's
    path rules, so it is a parameter. */
module Collection {
  import opened Wrappers
  import opened Viewer
  import opened Paths
  import opened Textures
  import opened Loading

  // ---------------------------------------------------------------------
  // DeleteSelected

  /** `vector::erase` of the element at `i`. */
  function RemoveAt<T>(s: seq<T>, i: nat): (r: seq<T>)
    requires i < |s|
    ensures |r| == |s| - 1
  {
    s[..i] + s[i + 1..]
  }

  /** Erasing keeps the elements before `i` in place, shifts the ones after
      it down by one, and removes exactly one occurrence of `s[i]`. */
  lemma RemoveAtContents<T>(s: seq<T>, i: nat)
    requires i < |s|
    ensures forall k :: 0 <= k < i ==> RemoveAt(s, i)[k] == s[k]
    ensures forall k :: i <= k < |s| - 1 ==> RemoveAt(s, i)[k] == s[k + 1]
    ensures multiset(RemoveAt(s, i)) + multiset{s[i]} == multiset(s)
  {
    assert s == s[..i] + [s[i]] + s[i + 1..];
  }

  /** The selection after erasing entry `del` of `n`: 0 once the list is
      empty, otherwise `del` clamped to the new last index. */
  function SelectionAfterDelete(del: nat, n: nat): (sel: int)
    requires del < n
    ensures n == 1 ==> sel == 0
    ensures n > 1 ==> 0 <= sel < n - 1
    ensures sel == del || (del == n - 1 && sel == del - 1)
  {
    if n - 1 == 0 then 0 else Min(del, n - 2)
  }

  /** After a delete, the entry that followed the deleted one is selected,
      or the one before it when the last entry was deleted. */
  lemma SelectionFollowsDeleted<T>(s: seq<T>, del: nat)
    requires del < |s| && |s| > 1
    ensures var sel := SelectionAfterDelete(del, |s|);
      RemoveAt(s, del)[sel] == (if del + 1 < |s| then s[del + 1] else s[del - 1])
  {
    RemoveAtContents(s, del);
  }

  /** `DeleteSelected`: with a selection in range, releases both textures of
      the selected image, erases it and moves the selection; otherwise
      changes nothing. Only the two released textures are touched. */
  method DeleteSelected(states: ImageStates)
    modifies states`states, states`selected
    modifies if 0 <= states.selected < |states.states|
             then {states.states[states.selected].texture, states.states[states.selected].textureThumb}
             else {}
    ensures !(0 <= old(states.selected) < |old(states.states)|) ==>
      states.states == old(states.states) && states.selected == old(states.selected)
    ensures 0 <= old(states.selected) < |old(states.states)| ==>
      var del := old(states.selected);
      var gone := old(states.states)[del];
      && states.states == RemoveAt(old(states.states), del)
      && states.selected == SelectionAfterDelete(del, |old(states.states)|)
      && ValueOf(gone.texture) == Released(old(ValueOf(gone.texture)))
      && ValueOf(gone.textureThumb) == Released(old(ValueOf(gone.textureThumb)))
  {
    if |states.states| == 0 {
      return;
    }
    var del := states.selected;
    if del < 0 || del >= |states.states| {
      return;
    }
    var gone := states.states[del];
    ReleaseTexture(gone.texture);
    ReleaseTexture(gone.textureThumb);
    states.states := states.states[..del] + states.states[del + 1..];
    if |states.states| == 0 {
      states.selected := 0;
    } else {
      states.selected := Min(del, |states.states| - 1);
    }
  }

  // ---------------------------------------------------------------------
  // drop_callback

  /** The message shown for a dropped file whose extension is not listed. */
  const NotImagePrefix: string := "Not a valid image file: "

  /** `normalize_path`: the absolute, lexically normal form of a path. */
  type Normalizer = string -> string

  /** `after` keeps every element of `before` in place, and may have more. */
  predicate Extends<T(==)>(after: seq<T>, before: seq<T>) {
    |after| >= |before| && forall k :: 0 <= k < |before| ==> after[k] == before[k]
  }

  /** The `currentPath` of each image, in list order. */
  function PathsOf(ss: seq<ImageState>): (ps: seq<string>)
    reads ss
    ensures |ps| == |ss|
  {
    if ss == [] then [] else PathsOf(ss[..|ss| - 1]) + [ss[|ss| - 1].currentPath]
  }

  /** The normalised forms of the paths `ps`. */
  function NormalForms(ps: seq<string>, normalize: Normalizer): (ns: set<string>)
    ensures forall i :: 0 <= i < |ps| ==> normalize(ps[i]) in ns
  {
    if ps == [] then {} else NormalForms(ps[..|ps| - 1], normalize) + {normalize(ps[|ps| - 1])}
  }

  /** Every normal form comes from one of the paths. */
  lemma {:induction false} NormalFormsWitness(ps: seq<string>, normalize: Normalizer, n: string)
    requires n in NormalForms(ps, normalize)
    ensures exists i :: 0 <= i < |ps| && normalize(ps[i]) == n
  {
    var front := ps[..|ps| - 1];
    if n in NormalForms(front, normalize) {
      NormalFormsWitness(front, normalize, n);
      var i :| 0 <= i < |front| && normalize(front[i]) == n;
      assert ps[i] == front[i];
    } else {
      assert normalize(ps[|ps| - 1]) == n;
    }
  }

  lemma {:induction false} NormalFormsAppend(a: seq<string>, b: seq<string>, normalize: Normalizer)
    ensures NormalForms(a + b, normalize) == NormalForms(a, normalize) + NormalForms(b, normalize)
  {
    if b == [] {
      assert a + b == a;
    } else {
      assert (a + b)[..|a + b| - 1] == a + b[..|b| - 1];
      NormalFormsAppend(a, b[..|b| - 1], normalize);
    }
  }

  /** What a dropped file turns out to be when it is tried: not an image
      by its extension, an image whose load fails, with the dialogs the
      failure shows, or an image that loads. */
  datatype Verdict = NotImage | LoadFails(shown: seq<string>) | Loads

  function FileVerdict(env: Environment, p: string, cfg: PreviewConfig): Verdict
    requires LoadReady(env, p, cfg.gray)
  {
    if !HasImageExtension(p) then NotImage else LoadVerdict(env, p, cfg)
  }

  /** The verdict on a path with a listed extension, from its load. */
  function LoadVerdict(env: Environment, p: string, cfg: PreviewConfig): Verdict
    requires LoadReady(env, p, cfg.gray)
  {
    match LoadError(env, p, cfg)
    case Some(e) => LoadFails(LoadDialogs(env, p, true) + [e])
    case None => Loads
  }

  predicate AllLoadReady(paths: seq<string>, env: Environment, gray: bool) {
    forall p :: p in paths ==> LoadReady(env, p, gray)
  }

  /** `vs` holds the verdict on each of `paths`. */
  predicate VerdictsOf(vs: seq<Verdict>, paths: seq<string>, env: Environment, cfg: PreviewConfig) {
    && AllLoadReady(paths, env, cfg.gray)
    && |vs| == |paths|
    && forall i {:trigger FileVerdict(env, paths[i], cfg)} :: 0 <= i < |paths| ==> vs[i] == FileVerdict(env, paths[i], cfg)
  }

  /** There is a verdict on each path. */
  lemma VerdictsOfPaths(paths: seq<string>, env: Environment, cfg: PreviewConfig) returns (vs: seq<Verdict>)
    requires AllLoadReady(paths, env, cfg.gray)
    ensures VerdictsOf(vs, paths, env, cfg)
  {
    vs := Verdicts(paths, env, cfg);
  }

  /** The verdict on each dropped path. */
  function Verdicts(paths: seq<string>, env: Environment, cfg: PreviewConfig): (vs: seq<Verdict>)
    requires AllLoadReady(paths, env, cfg.gray)
    ensures |vs| == |paths|
    ensures forall i :: 0 <= i < |paths| ==> vs[i] == FileVerdict(env, paths[i], cfg)
    ensures VerdictsOf(vs, paths, env, cfg)
  {
    seq(|paths|, i requires 0 <= i < |paths| => FileVerdict(env, paths[i], cfg))
  }

  /** One dropped path with verdict `v`, given the normalised paths of the
      images open so far: whether it is appended, and the dialogs shown
      for it. A path whose extension is not listed is reported; one that
      is already open is skipped silently; one that fails to load is
      reported with the dialogs of its failure. */
  function DropStep(known: set<string>, p: string, v: Verdict, normalize: Normalizer): (bool, seq<string>) {
    if v.NotImage? then (false, [NotImagePrefix + p])
    else if normalize(p) in known then (false, [])
    else if v.LoadFails? then (false, v.shown)
    else (true, [])
  }

  /** The first `i` passes of a drop of `paths`, whose verdicts are `vs`,
      onto a window whose images have the normalised paths `known`: the
      paths appended, in order, and the dialogs shown, in order. Each path is
      checked against the images open before it, including those appended
      by earlier passes. */
  function DropUpTo(known: set<string>, paths: seq<string>, vs: seq<Verdict>, normalize: Normalizer, i: nat)
    : (seq<string>, seq<string>)
    requires i <= |paths| == |vs|
  {
    if i == 0 then ([], [])
    else
      var (admitted, errors) := DropUpTo(known, paths, vs, normalize, i - 1);
      var (admit, shown) := DropStep(known + NormalForms(admitted, normalize), paths[i - 1], vs[i - 1], normalize);
      (admitted + (if admit then [paths[i - 1]] else []), errors + shown)
  }

  /** The whole drop. */
  function DropOutcome(known: set<string>, paths: seq<string>, vs: seq<Verdict>, normalize: Normalizer)
    : (seq<string>, seq<string>)
    requires |paths| == |vs|
  {
    DropUpTo(known, paths, vs, normalize, |paths|)
  }

  /** Each pass appends at most one path. */
  lemma {:induction false} DropAppendsAtMostOnePerPass(known: set<string>, paths: seq<string>, vs: seq<Verdict>,
                                                       normalize: Normalizer, i: nat)
    requires i <= |paths| == |vs|
    ensures |DropUpTo(known, paths, vs, normalize, i).0| <= i
  {
    if i > 0 {
      DropAppendsAtMostOnePerPass(known, paths, vs, normalize, i - 1);
    }
  }

  /** Every path a drop appends is a dropped path whose file loads. */
  lemma {:induction false} DropOpensOnlyLoadable(known: set<string>, paths: seq<string>, vs: seq<Verdict>,
                                                 normalize: Normalizer, i: nat)
    requires i <= |paths| == |vs|
    ensures forall p :: p in DropUpTo(known, paths, vs, normalize, i).0 ==>
      exists j :: 0 <= j < i && paths[j] == p && vs[j].Loads?
  {
    if i > 0 {
      DropOpensOnlyLoadable(known, paths, vs, normalize, i - 1);
    }
  }

  /** Every dropped path whose extension is not listed is reported. */
  lemma {:induction false} DropReportsNonImages(known: set<string>, paths: seq<string>, vs: seq<Verdict>,
                                                normalize: Normalizer, i: nat)
    requires i <= |paths| == |vs|
    ensures forall j :: 0 <= j < i && vs[j].NotImage? ==>
      NotImagePrefix + paths[j] in DropUpTo(known, paths, vs, normalize, i).1
  {
    if i > 0 {
      DropReportsNonImages(known, paths, vs, normalize, i - 1);
    }
  }

  /** A drop never appends a file twice: the normalised paths it appends
      are pairwise distinct and distinct from those of the images already
      open. */
  lemma {:induction false} DropOpensDistinct(known: set<string>, paths: seq<string>, vs: seq<Verdict>,
                                             normalize: Normalizer, i: nat)
    requires i <= |paths| == |vs|
    ensures var admitted := DropUpTo(known, paths, vs, normalize, i).0;
      && (forall k :: 0 <= k < |admitted| ==> normalize(admitted[k]) !in known)
      && (forall k, l :: 0 <= k < l < |admitted| ==> normalize(admitted[k]) != normalize(admitted[l]))
  {
    if i > 0 {
      DropOpensDistinct(known, paths, vs, normalize, i - 1);
      var prior := DropUpTo(known, paths, vs, normalize, i - 1).0;
      var admitted := DropUpTo(known, paths, vs, normalize, i).0;
      var p := paths[i - 1];
      var seen := known + NormalForms(prior, normalize);
      assert forall k :: 0 <= k < |prior| ==> prior[k] == DropUpTo(known, paths, vs, normalize, i - 1).0[k];
      if DropStep(seen, p, vs[i - 1], normalize).0 {
        assert admitted == prior + [p];
        assert normalize(p) !in seen;
        forall k | 0 <= k < |admitted| ensures normalize(admitted[k]) !in known {
          if k < |prior| {
            assert admitted[k] == prior[k];
          }
        }
        forall k, l | 0 <= k < l < |admitted| ensures normalize(admitted[k]) != normalize(admitted[l]) {
          assert admitted[k] == prior[k];
          if l < |prior| {
            assert admitted[l] == prior[l];
          }
        }
      } else {
        assert admitted == prior;
      }
    }
  }

  /** After the first `i` passes, every path among them that loads is open. */
  lemma {:induction false} DropSettles(known: set<string>, paths: seq<string>, vs: seq<Verdict>,
                                       normalize: Normalizer, i: nat)
    requires i <= |paths| == |vs|
    ensures var after := known + NormalForms(DropUpTo(known, paths, vs, normalize, i).0, normalize);
      forall j :: 0 <= j < i && vs[j].Loads? ==> normalize(paths[j]) in after
  {
    if i > 0 {
      DropSettles(known, paths, vs, normalize, i - 1);
      var prior := DropUpTo(known, paths, vs, normalize, i - 1).0;
      var admitted := DropUpTo(known, paths, vs, normalize, i).0;
      var before := known + NormalForms(prior, normalize);
      var after := known + NormalForms(admitted, normalize);
      if DropStep(before, paths[i - 1], vs[i - 1], normalize).0 {
        assert admitted == prior + [paths[i - 1]];
        NormalFormsAppend(prior, [paths[i - 1]], normalize);
      } else {
        assert admitted == prior;
      }
    }
  }

  /** A drop onto a window that already shows every dropped path that
      loads appends nothing. */
  lemma {:induction false} SettledDropOpensNothing(known: set<string>, paths: seq<string>, vs: seq<Verdict>,
                                                   normalize: Normalizer, i: nat)
    requires i <= |paths| == |vs|
    requires forall j :: 0 <= j < i && vs[j].Loads? ==> normalize(paths[j]) in known
    ensures DropUpTo(known, paths, vs, normalize, i).0 == []
  {
    if i > 0 {
      SettledDropOpensNothing(known, paths, vs, normalize, i - 1);
      assert known + NormalForms([], normalize) == known;
    }
  }

  /** Dropping the same files a second time appends nothing. */
  lemma DropTwiceOpensNothing(known: set<string>, paths: seq<string>, vs: seq<Verdict>, normalize: Normalizer)
    requires |paths| == |vs|
    ensures var first := DropOutcome(known, paths, vs, normalize).0;
      DropOutcome(known + NormalForms(first, normalize), paths, vs, normalize).0 == []
  {
    DropSettles(known, paths, vs, normalize, |paths|);
    var first := DropOutcome(known, paths, vs, normalize).0;
    SettledDropOpensNothing(known + NormalForms(first, normalize), paths, vs, normalize, |paths|);
  }

  /** In terms of the files: every path a drop appends has a listed
      extension and loads without error. */
  lemma DropOpensOnlyImages(known: set<string>, paths: seq<string>, env: Environment, cfg: PreviewConfig,
                            normalize: Normalizer)
    requires AllLoadReady(paths, env, cfg.gray)
    ensures forall p :: p in DropOutcome(known, paths, Verdicts(paths, env, cfg), normalize).0 ==>
      && p in paths && HasImageExtension(p) && LoadReady(env, p, cfg.gray) && LoadError(env, p, cfg).None?
  {
    var vs := Verdicts(paths, env, cfg);
    DropOpensOnlyLoadable(known, paths, vs, normalize, |paths|);
    forall p | p in DropOutcome(known, paths, vs, normalize).0
      ensures p in paths && HasImageExtension(p) && LoadReady(env, p, cfg.gray) && LoadError(env, p, cfg).None?
    {
      var i :| 0 <= i < |paths| && paths[i] == p && vs[i].Loads?;
      assert FileVerdict(env, paths[i], cfg) == Loads;
    }
  }

  /** In terms of the files: a dropped path with a listed extension whose
      file is missing shows one dialog, the load's error. */
  lemma DropMissingFileDialog(env: Environment, p: string, cfg: PreviewConfig)
    requires LoadReady(env, p, cfg.gray) && !IsRegularFile(env.fs, p)
    ensures LoadVerdict(env, p, cfg) == LoadFails([FileNotFoundPrefix + p])
  {
    assert LoadDialogs(env, p, true) == [];
  }

  /** In terms of the files: a dropped path with a listed extension whose
      file does not decode shows two dialogs, the load's own and then its
      error. */
  lemma DropUndecodableDialogs(env: Environment, p: string, cfg: PreviewConfig)
    requires LoadReady(env, p, cfg.gray) && IsRegularFile(env.fs, p) && env.fs[p].decoded.NoImage?
    ensures LoadVerdict(env, p, cfg) == LoadFails([CannotLoadPrefix + p, DecodeFailedMessage])
  {
    assert LoadDialogs(env, p, true) == [CannotLoadPrefix + p];
    assert LoadError(env, p, cfg) == Some(DecodeFailedMessage);
  }

  /** What holds of an image `drop_callback` appends: it has the session's
      toggles, its path and file name, and the decoded file as its source. */
  predicate Opened(st: ImageState, cfg: PreviewConfig, env: Environment)
    reads st
  {
    && st.Valid()
    && st.Applied() == cfg
    && st.filename == FileName(st.currentPath)
    && IsRegularFile(env.fs, st.currentPath)
    && st.sourceOriginal == env.fs[st.currentPath].decoded
    && st.sourceOriginal.Image?
  }

  /** The duplicate test of `drop_callback`: whether an open image's path
      normalises to `target`. */
  method IsAlreadyOpen(ss: seq<ImageState>, target: string, normalize: Normalizer) returns (found: bool)
    ensures found <==> target in NormalForms(PathsOf(ss), normalize)
  {
    var i := 0;
    while i < |ss|
      invariant 0 <= i <= |ss|
      invariant forall k :: 0 <= k < i ==> normalize(ss[k].currentPath) != target
    {
      if normalize(ss[i].currentPath) == target {
        PathsOfIndex(ss, i);
        return true;
      }
      i := i + 1;
    }
    if target in NormalForms(PathsOf(ss), normalize) {
      NormalFormsWitness(PathsOf(ss), normalize, target);
      var k :| 0 <= k < |PathsOf(ss)| && normalize(PathsOf(ss)[k]) == target;
      PathsOfIndex(ss, k);
      assert false;
    }
    return false;
  }

  lemma {:induction false} PathsOfIndex(ss: seq<ImageState>, k: nat)
    requires k < |ss|
    ensures PathsOf(ss)[k] == ss[k].currentPath
  {
    if k < |ss| - 1 {
      PathsOfIndex(ss[..|ss| - 1], k);
    }
  }

  /** The verdict on a path says whether its extension is listed. */
  lemma VerdictOfExtension(vs: seq<Verdict>, paths: seq<string>, env: Environment, cfg: PreviewConfig, i: nat)
    requires VerdictsOf(vs, paths, env, cfg) && i < |paths|
    ensures vs[i].NotImage? <==> !HasImageExtension(paths[i])
  {
    assert vs[i] == FileVerdict(env, paths[i], cfg);
  }

  /** One pass of the loop of `drop_callback`, for the path `paths[i]`,
      against the step of the drop's specification. */
  method DropOne(states: ImageStates, paths: seq<string>, ghost vs: seq<Verdict>, i: nat, ghost seen: set<string>,
                 cfg: PreviewConfig, env: Environment, normalize: Normalizer)
    returns (shown: seq<string>)
    requires cfg == states.Toggles() && VerdictsOf(vs, paths, env, cfg) && i < |paths|
    requires seen == NormalForms(PathsOf(states.states), normalize)
    modifies states`states
    ensures shown == DropStep(seen, paths[i], vs[i], normalize).1
    ensures |states.states| == |old(states.states)| + (if DropStep(seen, paths[i], vs[i], normalize).0 then 1 else 0)
    ensures Extends(states.states, old(states.states))
    ensures DropStep(seen, paths[i], vs[i], normalize).0 ==>
      var st := states.states[|old(states.states)|];
      fresh(st) && st.currentPath == paths[i] && Opened(st, cfg, env)
  {
    var p := paths[i];
    VerdictOfExtension(vs, paths, env, cfg, i);
    if !HasImageExtension(p) {
      return [NotImagePrefix + p];
    }
    var found := IsAlreadyOpen(states.states, normalize(p), normalize);
    if found {
      return [];
    }
    shown := OpenDropped(states, paths, vs, i, cfg, env);
  }

  /** The end of a pass for a new path with a listed extension: a fresh
      image takes the session's toggles and the path, is loaded, and is
      appended when the load succeeds; when it fails, its error is shown
      after any dialog of the load itself. */
  method OpenDropped(states: ImageStates, paths: seq<string>, ghost vs: seq<Verdict>, i: nat, cfg: PreviewConfig,
                     env: Environment)
    returns (shown: seq<string>)
    requires VerdictsOf(vs, paths, env, cfg) && i < |paths| && !vs[i].NotImage?
    modifies states`states
    ensures shown == (if vs[i].LoadFails? then vs[i].shown else [])
    ensures |states.states| == |old(states.states)| + (if vs[i].Loads? then 1 else 0)
    ensures Extends(states.states, old(states.states))
    ensures vs[i].Loads? ==>
      var st := states.states[|old(states.states)|];
      fresh(st) && st.currentPath == paths[i] && Opened(st, cfg, env)
  {
    var st := NewImageState(paths[i], cfg);
    var loaded, dialogs := LoadWithVerdict(st, paths, vs, i, cfg, env);
    if loaded.Fail? {
      assert vs[i].LoadFails? && states.states == old(states.states);
      return dialogs + [loaded.error];
    }
    states.states := states.states + [st];
    return [];
  }

  /** `load_image_from_path` on a dropped image, with errors shown: it
      succeeds exactly when the file loads without error, and then holds
      the decoded file. */
  method LoadDropped(st: ImageState, cfg: PreviewConfig, env: Environment) returns (r: Outcome<string>, shown: seq<string>)
    requires st.Valid() && st.Applied() == cfg && LoadReady(env, st.currentPath, cfg.gray)
    modifies st`sourceOriginal, st`width, st`height, st`channels, st`depth, st.inputBuffer
    modifies st`preview8u, st`previewRGBA, st`hasMinMax, st`minVal, st`maxVal, st.texture, st.textureThumb
    modifies st`zoom, st`lastWriteTime, st`lastFileSize, st`hasFileStamp
    ensures r == (if LoadError(env, st.currentPath, cfg).None? then Pass else Fail(LoadError(env, st.currentPath, cfg).value))
    ensures shown == LoadDialogs(env, st.currentPath, true)
    ensures r.Pass? ==>
      && IsRegularFile(env.fs, st.currentPath)
      && st.sourceOriginal == env.fs[st.currentPath].decoded
      && st.sourceOriginal.Image?
  {
    ghost var before := LoadFieldsOf(st);
    r, shown := LoadImageFromPath(st, env, true);
    LoadOutcomeOfFile(before, st.currentPath, cfg, env);
    LoadResultProperties(before, st.currentPath, cfg, env);
  }

  /** `load_image_from_path` on a dropped image with a listed extension,
      against the verdict on it. */
  method LoadWithVerdict(st: ImageState, paths: seq<string>, ghost vs: seq<Verdict>, i: nat, cfg: PreviewConfig,
                         env: Environment)
    returns (r: Outcome<string>, shown: seq<string>)
    requires VerdictsOf(vs, paths, env, cfg) && i < |paths| && !vs[i].NotImage?
    requires st.Valid() && st.Applied() == cfg && st.currentPath == paths[i] && st.filename == FileName(st.currentPath)
    modifies st`sourceOriginal, st`width, st`height, st`channels, st`depth, st.inputBuffer
    modifies st`preview8u, st`previewRGBA, st`hasMinMax, st`minVal, st`maxVal, st.texture, st.textureThumb
    modifies st`zoom, st`lastWriteTime, st`lastFileSize, st`hasFileStamp
    ensures st.currentPath == paths[i]
    ensures vs[i] == (if r.Pass? then Loads else LoadFails(shown + [r.error]))
    ensures r.Pass? ==> Opened(st, cfg, env)
  {
    VerdictOfLoad(vs, paths, env, cfg, i);
    ghost var name := st.filename;
    r, shown := LoadDropped(st, cfg, env);
    assert st.Valid() && st.Applied() == cfg && st.filename == name;
  }

  /** For a path with a listed extension, the verdict is the load's outcome. */
  lemma VerdictOfLoad(vs: seq<Verdict>, paths: seq<string>, env: Environment, cfg: PreviewConfig, i: nat)
    requires VerdictsOf(vs, paths, env, cfg) && i < |paths| && !vs[i].NotImage?
    ensures LoadReady(env, paths[i], cfg.gray)
    ensures vs[i] == (if LoadError(env, paths[i], cfg).None? then Loads
                      else LoadFails(LoadDialogs(env, paths[i], true) + [LoadError(env, paths[i], cfg).value]))
  {
    assert vs[i] == FileVerdict(env, paths[i], cfg);
  }

  /** A default image state with the session's toggles and a dropped path. */
  method NewImageState(p: string, cfg: PreviewConfig) returns (st: ImageState)
    ensures fresh(st) && fresh(st.inputBuffer) && fresh(st.texture) && fresh(st.textureThumb)
    ensures st.Valid() && st.Applied() == cfg && st.currentPath == p && st.filename == FileName(p)
    ensures st.sourceOriginal == NoImage
  {
    st := new ImageState();
    st.grayApplied, st.autoContrastApplied := cfg.gray, cfg.autoContrast;
    st.pseudoColorApplied, st.ignoreAlphaApplied := cfg.pseudoColor, cfg.ignoreAlpha;
    st.currentPath := p;
    assert st.Valid() && st.Applied() == cfg && st.sourceOriginal == NoImage;
    st.filename := FileName(p);
  }

  /** `drop_callback`: tries each dropped path in turn, appends the images
      that load, and returns the dialogs shown, in order, including the one
      `load_image_from_path` shows for a file that does not decode. */
  method Drop(states: ImageStates, paths: seq<string>, env: Environment, normalize: Normalizer)
    returns (errors: seq<string>, ghost vs: seq<Verdict>)
    requires AllLoadReady(paths, env, states.grayImage)
    modifies states`states
    ensures VerdictsOf(vs, paths, env, states.Toggles())
    ensures Extends(states.states, old(states.states))
    ensures var (admitted, shown) := DropOutcome(old(NormalForms(PathsOf(states.states), normalize)), paths, vs, normalize);
      && errors == shown
      && PathsOf(states.states) == old(PathsOf(states.states)) + admitted
    ensures forall k :: |old(states.states)| <= k < |states.states| ==>
      fresh(states.states[k]) && Opened(states.states[k], states.Toggles(), env)
  {
    errors := [];
    var cfg := states.Toggles();
    vs := VerdictsOfPaths(paths, env, cfg);
    ghost var n0 := |states.states|;
    ghost var paths0 := PathsOf(states.states);
    ghost var known := NormalForms(paths0, normalize);
    var i := 0;
    while i < |paths|
      invariant 0 <= i <= |paths|
      invariant Extends(states.states, old(states.states))
      invariant PathsOf(states.states) == paths0 + DropUpTo(known, paths, vs, normalize, i).0
      invariant errors == DropUpTo(known, paths, vs, normalize, i).1
      invariant forall k :: n0 <= k < |states.states| ==> fresh(states.states[k]) && Opened(states.states[k], cfg, env)
    {
      ghost var before := states.states;
      errors := DropPass(states, paths, vs, i, cfg, env, normalize, known, paths0, n0, errors);
      forall k | n0 <= k < |states.states| ensures fresh(states.states[k]) {
        if k < |before| {
          assert states.states[k] == before[k];
        }
      }
      i := i + 1;
    }
    assert DropOutcome(known, paths, vs, normalize) == DropUpTo(known, paths, vs, normalize, i);
  }

  /** Pass `i` of the loop of `drop_callback`, against the drop's
      specification: it extends the images and the errors of the first `i`
      passes to those of the first `i + 1`. */
  method DropPass(states: ImageStates, paths: seq<string>, ghost vs: seq<Verdict>, i: nat, cfg: PreviewConfig,
                  env: Environment, normalize: Normalizer, ghost known: set<string>, ghost paths0: seq<string>,
                  ghost n0: nat, errors: seq<string>)
    returns (errors': seq<string>)
    requires i < |paths| == |vs| && cfg == states.Toggles()
    requires VerdictsOf(vs, paths, env, cfg)
    requires known == NormalForms(paths0, normalize)
    requires PathsOf(states.states) == paths0 + DropUpTo(known, paths, vs, normalize, i).0
    requires errors == DropUpTo(known, paths, vs, normalize, i).1
    requires n0 <= |states.states| && forall k :: n0 <= k < |states.states| ==> Opened(states.states[k], cfg, env)
    modifies states`states
    ensures PathsOf(states.states) == paths0 + DropUpTo(known, paths, vs, normalize, i + 1).0
    ensures errors' == DropUpTo(known, paths, vs, normalize, i + 1).1
    ensures Extends(states.states, old(states.states))
    ensures forall k :: |old(states.states)| <= k < |states.states| ==> fresh(states.states[k])
    ensures forall k :: n0 <= k < |states.states| ==> Opened(states.states[k], cfg, env)
  {
    ghost var ss := states.states;
    ghost var prior := DropUpTo(known, paths, vs, normalize, i).0;
    DropIteration(paths, vs, i, normalize, known, paths0, PathsOf(ss));
    DropUpToStep(known, paths, vs, normalize, i);
    ghost var seen := known + NormalForms(prior, normalize);
    var shown := DropOne(states, paths, vs, i, seen, cfg, env, normalize);
    PathsOfExtended(ss, states.states, paths0, prior);
    ExtendedOpened(ss, states.states, n0, cfg, env);
    forall k | |ss| <= k < |states.states| ensures fresh(states.states[k]) {
      assert k == |ss| && DropStep(seen, paths[i], vs[i], normalize).0;
    }
    errors' := errors + shown;
  }

  /** The first `i + 1` passes of a drop are the first `i` and one more step. */
  lemma DropUpToStep(known: set<string>, paths: seq<string>, vs: seq<Verdict>, normalize: Normalizer, i: nat)
    requires i < |paths| == |vs|
    ensures var prior := DropUpTo(known, paths, vs, normalize, i);
      var (admit, shown) := DropStep(known + NormalForms(prior.0, normalize), paths[i], vs[i], normalize);
      DropUpTo(known, paths, vs, normalize, i + 1) == (prior.0 + (if admit then [paths[i]] else []), prior.1 + shown)
  {
  }

  /** Before pass `i`, the open images normalise to what the drop's
      specification consults for `paths[i]`. */
  lemma DropIteration(paths: seq<string>, vs: seq<Verdict>, i: nat, normalize: Normalizer,
                      known: set<string>, paths0: seq<string>, current: seq<string>)
    requires i < |paths| == |vs|
    requires known == NormalForms(paths0, normalize)
    requires current == paths0 + DropUpTo(known, paths, vs, normalize, i).0
    ensures NormalForms(current, normalize) == known + NormalForms(DropUpTo(known, paths, vs, normalize, i).0, normalize)
  {
    NormalFormsAppend(paths0, DropUpTo(known, paths, vs, normalize, i).0, normalize);
  }

  /** Appending an opened image to opened images leaves them all opened. */
  lemma ExtendedOpened(before: seq<ImageState>, after: seq<ImageState>, n0: nat, cfg: PreviewConfig, env: Environment)
    requires |after| <= |before| + 1 && Extends(after, before) && n0 <= |before|
    requires forall k :: n0 <= k < |before| ==> Opened(before[k], cfg, env)
    requires |after| == |before| + 1 ==> Opened(after[|before|], cfg, env)
    ensures forall k :: n0 <= k < |after| ==> Opened(after[k], cfg, env)
  {
    forall k | n0 <= k < |after| ensures Opened(after[k], cfg, env) {
      if k < |before| {
        assert after[k] == before[k];
      }
    }
  }

  /** Appending an image appends its path to those of the images before it. */
  lemma PathsOfExtended(before: seq<ImageState>, after: seq<ImageState>, paths0: seq<string>, prior: seq<string>)
    requires |after| <= |before| + 1 && Extends(after, before)
    requires PathsOf(before) == paths0 + prior
    ensures |after| == |before| ==> PathsOf(after) == paths0 + prior
    ensures |after| == |before| + 1 ==> PathsOf(after) == paths0 + (prior + [after[|before|].currentPath])
  {
    if |after| == |before| {
      assert after == before;
    } else {
      assert after[..|after| - 1] == before;
    }
  }
}

/**
 * `ImageRenameHandler.on_created` and `rename_new_image`: a created file is
 * renamed to the next free number in the watched folder, copied into the
 * `copied_images` folder as `<number>_grayscale<ext>`, and the copy is
 * converted to grayscale. Each filesystem call is replaced by its result,
 * given in an `Environment`; the handler's effects on disk are returned as
 * a list, in the order they happen.
 */
module Staging {
  import opened NtPath
  import opened Numbering
  import opened RenameRetry

  /** A watchdog creation event. */
  datatype Event = Event(isDirectory: bool, srcPath: string)

  /** The answers the outside world gives to one handler call. */
  datatype Environment = Environment(
    appeared: bool,              // `wait_for_file` saw the file before its timeout
    listing: seq<string>,        // `os.listdir(folder)`
    probe: nat -> Probe,         // the answer of each rename iteration
    makedirsOk: bool,            // `os.makedirs(copy_folder, exist_ok=True)` returned
    copyOk: bool,                // `shutil.copy2` returned
    convertOk: bool)             // the PIL open, convert and save succeeded

  /** A change the handler makes on disk. */
  datatype Effect =
    | Moved(source: string, target: string)       // `os.rename`, target in the watched folder
    | CopyFolderEnsured                           // `copied_images` exists
    | Copied(original: string, copy: string)      // `shutil.copy2` into `copied_images`
    | ConvertedToGrayscale(copy: string)          // the copy rewritten in mode "L"

  /** How the handler call ended. */
  datatype Outcome =
    | DirectoryIgnored     // line 15
    | NeverAppeared        // line 20
    | RenameFatal          // line 70
    | RenameExhausted      // line 73
    | CopyFolderFailed     // `os.makedirs` raised: the exception leaves the handler
    | CopyFailed           // line 89
    | ConversionFailed     // reported, nothing undone
    | Staged

  /** Lines 80-81: the grayscale copy's name, `<stem>_grayscale<ext>`. */
  function GrayscaleName(newName: string): string {
    Stem(newName) + "_grayscale" + Extension(newName)
  }

  /** Every effect of a complete staging under the new name, in order. */
  function Plan(srcPath: string, newName: string): seq<Effect> {
    var copyName := GrayscaleName(newName);
    [Moved(srcPath, newName), CopyFolderEnsured, Copied(newName, copyName), ConvertedToGrayscale(copyName)]
  }

  /** The steps after the name is chosen: the outcome and the effects, a prefix of the plan. */
  function StageAs(srcPath: string, newName: string, env: Environment): (Outcome, seq<Effect>) {
    var plan := Plan(srcPath, newName);
    match Retry(env.probe, 0).0
    case Fatal => (RenameFatal, [])
    case Exhausted => (RenameExhausted, [])
    case Renamed =>
      if !env.makedirsOk then (CopyFolderFailed, plan[..1])
      else if !env.copyOk then (CopyFailed, plan[..2])
      else if !env.convertOk then (ConversionFailed, plan[..3])
      else (Staged, plan)
  }

  /** `rename_new_image` (lines 33-95). */
  function Stage(srcPath: string, env: Environment): (Outcome, seq<Effect>) {
    StageAs(srcPath, NewName(env.listing, srcPath), env)
  }

  /** `on_created` (lines 12-22). */
  function Handle(event: Event, env: Environment): (Outcome, seq<Effect>) {
    if event.isDirectory then (DirectoryIgnored, [])
    else if !env.appeared then (NeverAppeared, [])
    else Stage(event.srcPath, env)
  }

  /** The grayscale copy is named `<ID>_grayscale<ext>`, with the source file's own extension. */
  lemma GrayscaleNameOfNewName(listing: seq<string>, srcPath: string)
    ensures GrayscaleName(NewName(listing, srcPath))
            == PyText.DecimalString(NextId(listing)) + "_grayscale" + Extension(srcPath)
  {
    NewNameRoundTrip(listing, srcPath);
  }

  /** The effects always happen in plan order, and stop at the first failing step. */
  lemma EffectsFollowPlan(srcPath: string, newName: string, env: Environment)
    ensures var (outcome, effects) := StageAs(srcPath, newName, env);
      && effects == Plan(srcPath, newName)[..|effects|]
      && (outcome == Staged <==> |effects| == 4)
  {
    var plan := Plan(srcPath, newName);
    var (outcome, effects) := StageAs(srcPath, newName, env);
    match Retry(env.probe, 0).0
    case Fatal =>
      assert effects == [];
    case Exhausted =>
      assert effects == [];
    case Renamed =>
      if !env.makedirsOk {
        assert effects == plan[..1];
      } else if !env.copyOk {
        assert effects == plan[..2];
      } else if !env.convertOk {
        assert effects == plan[..3];
      } else {
        assert effects == plan == plan[..4];
      }
  }

  /** Nothing changes on disk unless the rename succeeded; the copy needs the rename and the
      copy folder, the conversion needs the copy. */
  lemma StepOrder(srcPath: string, newName: string, env: Environment)
    ensures var (outcome, effects) := StageAs(srcPath, newName, env);
      && (effects != [] <==> Retry(env.probe, 0).0 == Renamed)
      && (|effects| >= 3 <==> Retry(env.probe, 0).0 == Renamed && env.makedirsOk && env.copyOk)
      && (|effects| == 4 <==> Retry(env.probe, 0).0 == Renamed && env.makedirsOk && env.copyOk && env.convertOk)
  {
  }

  /** A non-lock rename error ends the call at once: no copy, no conversion. */
  lemma FatalRenameStopsEverything(event: Event, env: Environment)
    requires !event.isDirectory && env.appeared
    requires Retry(env.probe, 0).0 == Fatal
    ensures Handle(event, env) == (RenameFatal, [])
  {
  }

  /** Ten counted failures end the call without copying. */
  lemma ExhaustedRetriesStopEverything(event: Event, env: Environment)
    requires !event.isDirectory && env.appeared
    requires forall k: nat :: k < MaxAttempts ==> Retryable(env.probe(k))
    ensures Handle(event, env) == (RenameExhausted, [])
  {
    RetryResult(env.probe, 0);
  }

  /** A failed conversion keeps the rename and the copy. */
  lemma ConversionFailureKeepsProgress(srcPath: string, newName: string, env: Environment)
    requires StageAs(srcPath, newName, env).0 == ConversionFailed
    ensures StageAs(srcPath, newName, env).1
            == [Moved(srcPath, newName), CopyFolderEnsured, Copied(newName, GrayscaleName(newName))]
  {
  }

  /** Lines 35-46: the extension of the source, the ID scan and the new name. */
  method ChooseName(srcPath: string, listing: seq<string>) returns (newName: string)
    ensures newName == NewName(listing, srcPath)
    ensures newName !in listing
    ensures SplitExt(newName) == (PyText.DecimalString(NextId(listing)), Extension(srcPath))
  {
    var ext := SplitExt(srcPath).1;
    var numbers := CollectNumbers(listing);
    var nextNumber := if numbers == [] then 1 else MaxOf(numbers) + 1;
    newName := PyText.DecimalString(nextNumber) + ext;
    NewNameIsFresh(listing, srcPath);
    NewNameRoundTrip(listing, srcPath);
  }

  /** Lines 49-95: the retry loop, then the copy folder, the copy and the conversion. */
  method RenameAndCopy(srcPath: string, newName: string, env: Environment) returns (outcome: Outcome, effects: seq<Effect>)
    ensures (outcome, effects) == StageAs(srcPath, newName, env)
  {
    var renamed, _ := RenameWithRetry(env.probe);
    if renamed == Fatal {
      return RenameFatal, [];
    } else if renamed == Exhausted {
      return RenameExhausted, [];
    }
    effects := [Moved(srcPath, newName)];
    assert effects == Plan(srcPath, newName)[..1];

    if !env.makedirsOk {
      return CopyFolderFailed, effects;
    }
    effects := effects + [CopyFolderEnsured];
    assert effects == Plan(srcPath, newName)[..2];

    var copyName := GrayscaleName(newName);
    if !env.copyOk {
      return CopyFailed, effects;
    }
    effects := effects + [Copied(newName, copyName)];
    assert effects == Plan(srcPath, newName)[..3];

    if !env.convertOk {
      return ConversionFailed, effects;
    }
    effects := effects + [ConvertedToGrayscale(copyName)];
    assert effects == Plan(srcPath, newName);
    outcome := Staged;
  }

  /** Lines 33-95: choose the name, then rename and copy. */
  method RenameNewImage(srcPath: string, env: Environment) returns (outcome: Outcome, effects: seq<Effect>)
    ensures (outcome, effects) == Stage(srcPath, env)
  {
    var newName := ChooseName(srcPath, env.listing);
    outcome, effects := RenameAndCopy(srcPath, newName, env);
  }

  /** Lines 12-22: the directory guard, the wait for the file, then the staging. */
  method OnCreated(event: Event, env: Environment) returns (outcome: Outcome, effects: seq<Effect>)
    ensures (outcome, effects) == Handle(event, env)
    ensures event.isDirectory ==> outcome == DirectoryIgnored && effects == []
  {
    if event.isDirectory {
      return DirectoryIgnored, [];
    }
    if !env.appeared {
      return NeverAppeared, [];
    }
    outcome, effects := RenameNewImage(event.srcPath, env);
  }
}

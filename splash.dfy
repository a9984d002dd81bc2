/** ui/splash.py: the file-arrival handler the watcher uses, and the
    deferred loading of the watch library. The polling thread's `getsize`
    answers and the one-second sleeps are given as observations. */
module Splash {
  import opened Wrappers
  import opened Text
  import opened Paths

  /** The audio and video extensions the watcher accepts (`_EXTS`). */
  const Extensions: set<string> := {".mp4", ".mp3", ".wav", ".m4a", ".ogg",
                                    ".flac", ".webm", ".mpeg", ".mpg", ".mov"}

  /** `os.path.splitext(path)[1].lower() in _EXTS`. */
  predicate HasMediaExtension(path: string) {
    Lower(Ext(path)) in Extensions
  }

  /** The filter on a full path accepts exactly the files whose bare name
      it accepts, so filtering the event path and filtering the listed
      names agree. */
  lemma MediaExtensionOfJoin(dir: string, name: string)
    requires Sep !in name
    ensures HasMediaExtension(PathJoin(dir, name)) <==> HasMediaExtension(name)
  {
    SplitExtOfJoin(dir, name);
  }

  /** A filesystem creation event. */
  datatype CreatedEvent = CreatedEvent(isDirectory: bool, srcPath: string)

  /** What one `os.path.getsize(path)` call observed. */
  datatype SizeObservation = Size(bytes: nat) | OSError

  const MaxPolls: nat := 60

  /** The last size observed successfully before poll `i`, or -1 when none
      was: the value of `prev` when poll `i` starts. */
  function PrevSize(sizeAt: nat -> SizeObservation, i: nat): (p: int)
    ensures p >= -1
    decreases i
  {
    if i == 0 then -1
    else match sizeAt(i - 1)
      case Size(b) => b
      case OSError => PrevSize(sizeAt, i - 1)
  }

  /** Poll `i` finds the file stable: its size is that of the previous
      successful poll, and not zero. */
  predicate StableAt(sizeAt: nat -> SizeObservation, i: nat) {
    sizeAt(i).Size? && sizeAt(i).bytes > 0 && sizeAt(i).bytes == PrevSize(sizeAt, i)
  }

  /** The first poll at or after `i` (and before the 60th) that finds the
      file stable. */
  function FirstStableFrom(sizeAt: nat -> SizeObservation, i: nat): (r: Option<nat>)
    decreases MaxPolls - i
    ensures r.Some? ==> i <= r.value < MaxPolls && StableAt(sizeAt, r.value)
    ensures r.Some? ==> forall k :: i <= k < r.value ==> !StableAt(sizeAt, k)
    ensures r.None? ==> forall k :: i <= k < MaxPolls ==> !StableAt(sizeAt, k)
  {
    if i >= MaxPolls then None
    else if StableAt(sizeAt, i) then Some(i)
    else FirstStableFrom(sizeAt, i + 1)
  }

  /** The first poll is never stable: nothing was observed before it. */
  lemma FirstPollNeverFires(sizeAt: nat -> SizeObservation)
    ensures !StableAt(sizeAt, 0)
    ensures FirstStableFrom(sizeAt, 0) != Some(0)
  {
  }

  /** A file whose every poll succeeds with a size different from the one
      before never fires. */
  lemma {:induction false} ChangingSizeNeverFires(sizeAt: nat -> SizeObservation)
    requires forall k :: 0 <= k < MaxPolls ==> sizeAt(k).Size?
    requires forall k :: 0 < k < MaxPolls ==> sizeAt(k).bytes != sizeAt(k - 1).bytes
    ensures FirstStableFrom(sizeAt, 0).None?
  {
    forall k | 0 <= k < MaxPolls ensures !StableAt(sizeAt, k) {
      if k > 0 {
        assert PrevSize(sizeAt, k) == sizeAt(k - 1).bytes;
      }
    }
  }

  /** A file whose polls all succeed, with sizes that keep changing up to
      poll `k` and a non-zero size at poll `k + 1` equal to that of poll
      `k`, fires exactly at poll `k + 1`. */
  lemma {:induction false} SettlingFileFires(sizeAt: nat -> SizeObservation, k: nat)
    requires k + 1 < MaxPolls
    requires forall j :: 0 <= j <= k + 1 ==> sizeAt(j).Size?
    requires forall j :: 0 < j <= k ==> sizeAt(j).bytes != sizeAt(j - 1).bytes
    requires sizeAt(k + 1).bytes == sizeAt(k).bytes > 0
    ensures FirstStableFrom(sizeAt, 0) == Some(k + 1)
  {
    forall j | 0 <= j <= k ensures !StableAt(sizeAt, j) {
      if j > 0 {
        assert PrevSize(sizeAt, j) == sizeAt(j - 1).bytes;
      }
    }
    assert PrevSize(sizeAt, k + 1) == sizeAt(k).bytes;
    FirstStableAt(sizeAt, k + 1);
  }

  /** An error observation changes nothing for the next poll: `prev` keeps
      the last size seen. */
  lemma ErrorKeepsPrev(sizeAt: nat -> SizeObservation, i: nat)
    requires sizeAt(i).OSError?
    ensures PrevSize(sizeAt, i + 1) == PrevSize(sizeAt, i)
    ensures !StableAt(sizeAt, i)
  {
  }

  /** The watchdog event handler: the paths it has taken on, the polling
      loops it has started, and the paths it has reported as arrived. */
  class Mp3Handler {
    var processed: set<string>
    var polling: seq<string>
    var notified: seq<string>

    constructor ()
      ensures processed == {} && polling == [] && notified == []
    {
      processed := {};
      polling := [];
      notified := [];
    }

    /** `on_created(event)`: directories and other extensions are ignored,
        and so is a path seen before; a new path is recorded before its
        polling loop starts, so no path is polled twice. */
    method OnCreated(event: CreatedEvent) returns (started: bool)
      modifies this
      ensures started <==> !event.isDirectory && HasMediaExtension(event.srcPath)
                           && event.srcPath !in old(processed)
      ensures processed == old(processed) + (if started then {event.srcPath} else {})
      ensures polling == old(polling) + (if started then [event.srcPath] else [])
      ensures notified == old(notified)
    {
      started := false;
      if event.isDirectory {
        return;
      }
      var src := event.srcPath;
      if Lower(Ext(src)) in Extensions {
        if src in processed {
          return;
        }
        processed := processed + {src};
        polling := polling + [src];
        started := true;
      }
    }

    /** `_wait_stable(path)`: at most 60 polls, one second apart; the
        callback runs at the first poll whose size equals the previous
        successful size and is not zero, and then polling stops. `sizeAt(i)`
        is what the i-th `getsize` observes. */
    method WaitStable(path: string, sizeAt: nat -> SizeObservation) returns (firedAt: Option<nat>, polls: nat)
      modifies this
      ensures firedAt == FirstStableFrom(sizeAt, 0)
      ensures polls == if firedAt.Some? then firedAt.value + 1 else MaxPolls
      ensures notified == old(notified) + (if firedAt.Some? then [path] else [])
      ensures processed == old(processed) && polling == old(polling)
    {
      var prev: int := -1;
      var i: nat := 0;
      while i < MaxPolls
        invariant i <= MaxPolls
        invariant prev == PrevSize(sizeAt, i)
        invariant forall k :: 0 <= k < i ==> !StableAt(sizeAt, k)
        invariant notified == old(notified)
      {
        match sizeAt(i) {
          case Size(sz) =>
            if sz == prev && sz > 0 {
              notified := notified + [path];
              FirstStableAt(sizeAt, i);
              return Some(i), i + 1;
            }
            prev := sz;
          case OSError =>
        }
        i := i + 1;
      }
      return None, MaxPolls;
    }
  }

  lemma {:induction false} FirstStableAt(sizeAt: nat -> SizeObservation, i: nat)
    requires i < MaxPolls && StableAt(sizeAt, i)
    requires forall k :: 0 <= k < i ==> !StableAt(sizeAt, k)
    ensures FirstStableFrom(sizeAt, 0) == Some(i)
  {
    FirstStableFromSkips(sizeAt, 0, i);
  }

  lemma {:induction false} FirstStableFromSkips(sizeAt: nat -> SizeObservation, j: nat, i: nat)
    requires j <= i < MaxPolls && StableAt(sizeAt, i)
    requires forall k :: j <= k < i ==> !StableAt(sizeAt, k)
    ensures FirstStableFrom(sizeAt, j) == Some(i)
    decreases i - j
  {
    if j < i {
      FirstStableFromSkips(sizeAt, j + 1, i);
    }
  }

  /** The module globals `load_resources` sets up for the watcher. */
  datatype WatchSupport = WatchSupport(hasWatchdog: bool, observerAvailable: bool, handlerAvailable: bool)

  /** The values before `load_resources` runs. */
  const InitialSupport := WatchSupport(false, false, false)

  /** `load_resources`: when the service imports succeed, `HAS_WATCHDOG`,
      `Observer` and `Mp3Handler` follow whether the watchdog import
      succeeded; when a service import fails the error is printed and the
      globals keep their earlier values. */
  function LoadResources(current: WatchSupport, servicesImport: bool, watchdogImport: bool): (r: WatchSupport)
    ensures !servicesImport ==> r == current
    ensures servicesImport ==> r.hasWatchdog == watchdogImport
    ensures servicesImport ==> r.observerAvailable == r.hasWatchdog && r.handlerAvailable == r.hasWatchdog
  {
    if !servicesImport then current
    else if watchdogImport then WatchSupport(true, true, true)
    else WatchSupport(false, false, false)
  }
}

/** app.py: the publishing pipeline of the main window. A file arrives (from
    the folder watcher or chosen by hand), is transcribed and written up as
    a draft, verified, corrected, published, and the window returns to its
    first step, taking the next queued file when the watcher is on.

    Timers (`self.after(ms, ...)`) and worker threads are not run: each
    handler appends what it starts to `scheduled`, and the environment later
    calls the handler that event names. Widget text is kept as the strings
    the widgets hold. */
module App {
  import opened Wrappers
  import opened Text
  import opened Paths
  import opened News
  import opened Settings
  import opened Splash
  import opened Widgets
  import opened Dialogs
  import opened Publisher

  const StepAudio := 0
  const StepProcess := 1
  const StepEdit := 2
  const StepPublish := 3

  /** What a timer or a thread will do when the environment fires it. */
  datatype Action =
    | Detect(path: string)                                 // `_on_mp3_detected(path)`
    | ProcessingWorker                                     // `_hilo_procesamiento`
    | BeginVerification(autoPublish: bool)                 // `_iniciar_verificacion`
    | VerificationWorker(news: Article, autoPublish: bool) // `_hilo_verificacion`
    | PublishStep                                          // `_publicar`
    | PublicationWorker(data: NewsData)                    // `_hilo_publicacion`
    | FlowReset                                            // `_reset_flow`

  /** A scheduled action with its delay in milliseconds (0 for a thread
      started at once). */
  datatype Event = Event(delayMs: nat, action: Action)

  /** A verification dialog left open for the editor, with what its apply
      button will pass on. */
  datatype Review = Review(corrections: seq<Correction>, corrected: Article, original: Article,
                           autoPublish: bool)

  /** A directory listing entry: name, whether it is a regular file, and
      its modification time. */
  datatype DirEntry = DirEntry(name: string, isFile: bool, mtime: int)

  /** What the title, lead and tag widgets hold, and the HTML content
      kept beside the rendered view. */
  datatype DraftText = DraftText(titulo: string, entradilla: string, contenido: string, etiquetas: string)

  const EmptyDraft := DraftText("", "", "", "")

  /** The draft as the handlers read it back from the widgets: the text
      fields stripped, the content as stored, and the tag field parsed. */
  function DraftOf(d: DraftText): (a: Article)
    ensures Strip(a.titulo) == a.titulo && Strip(a.entradilla) == a.entradilla
    ensures forall k :: 0 <= k < |a.etiquetas| ==> WellFormedTag(a.etiquetas[k])
  {
    StripIdempotent(d.titulo);
    StripIdempotent(d.entradilla);
    Article(Strip(d.titulo), Strip(d.entradilla), d.contenido, ParseTags(d.etiquetas))
  }

  /** `_fill_draft(noticia)`: the widgets take the article's fields, the
      tags joined by ", ". */
  function FilledDraft(noticia: Article): (d: DraftText)
    ensures d.titulo == noticia.titulo && d.entradilla == noticia.entradilla && d.contenido == noticia.contenido
    ensures (forall k :: 0 <= k < |noticia.etiquetas| ==> ',' !in noticia.etiquetas[k]) ==>
              ParseTags(d.etiquetas) == CleanTags(noticia.etiquetas)
  {
    ShownTagsReadBack(noticia.etiquetas);
    DraftText(noticia.titulo, noticia.entradilla, noticia.contenido, JoinTags(noticia.etiquetas))
  }

  /** Filling the draft with an article and reading it back gives the
      article again when its title and lead carry no surrounding space and
      its tags are well formed. */
  lemma DraftOfFilled(noticia: Article)
    requires Strip(noticia.titulo) == noticia.titulo && Strip(noticia.entradilla) == noticia.entradilla
    requires forall k :: 0 <= k < |noticia.etiquetas| ==> WellFormedTag(noticia.etiquetas[k])
    ensures DraftOf(FilledDraft(noticia)) == noticia
  {
    ParseTagsOfJoined(noticia.etiquetas);
  }

  /** Reading a draft back is a fixed point: filling the widgets with what
      was read and reading again gives the same article. */
  lemma DraftOfStable(d: DraftText)
    ensures DraftOf(FilledDraft(DraftOf(d))) == DraftOf(d)
  {
    DraftOfFilled(DraftOf(d));
  }

  /** `_aplicar_correcciones`: each field of the corrected text that is
      non-empty replaces the widget's content. */
  function CorrectedDraft(d: DraftText, tc: Article): DraftText {
    DraftText(if tc.titulo != [] then tc.titulo else d.titulo,
              if tc.entradilla != [] then tc.entradilla else d.entradilla,
              if tc.contenido != [] then tc.contenido else d.contenido,
              if tc.etiquetas != [] then JoinTags(tc.etiquetas) else d.etiquetas)
  }

  /** An empty corrected text leaves the draft alone, and a complete one
      replaces it: the draft then reads back as the corrected text. */
  lemma CorrectedDraftEffect(d: DraftText, tc: Article)
    ensures tc.titulo == [] && tc.entradilla == [] && tc.contenido == [] && tc.etiquetas == [] ==>
              CorrectedDraft(d, tc) == d
    ensures tc.titulo != [] && tc.entradilla != [] && tc.contenido != [] && tc.etiquetas != [] ==>
              CorrectedDraft(d, tc) == FilledDraft(tc)
  {
  }

  /** A field the corrected text leaves empty reads back as before. */
  lemma CorrectedDraftKeeps(d: DraftText, tc: Article)
    ensures tc.titulo == [] ==> DraftOf(CorrectedDraft(d, tc)).titulo == DraftOf(d).titulo
    ensures tc.entradilla == [] ==> DraftOf(CorrectedDraft(d, tc)).entradilla == DraftOf(d).entradilla
    ensures tc.contenido == [] ==> DraftOf(CorrectedDraft(d, tc)).contenido == DraftOf(d).contenido
    ensures tc.etiquetas == [] ==> DraftOf(CorrectedDraft(d, tc)).etiquetas == DraftOf(d).etiquetas
  {
  }

  /** `archivo_original` in the publish payload: the stem of the original
      file name with ".mp4", or "" when there is none. */
  function ArchivoOriginal(originalFilename: Option<string>): (r: string)
    ensures originalFilename.None? || originalFilename.value == [] ==> r == []
    ensures originalFilename.Some? && originalFilename.value != [] ==>
              r == Stem(originalFilename.value) + ".mp4"
  {
    if originalFilename.Some? && originalFilename.value != [] then Stem(originalFilename.value) + ".mp4"
    else ""
  }

  /** The video file name the processing worker hands to the writer:
      `splitext(original_filename or "")[0] + ".mp4"`. */
  function WorkerVideoFilename(originalFilename: Option<string>): (r: string)
    ensures |r| >= 4 && r[|r| - 4..] == ".mp4"
  {
    Stem(originalFilename.GetOr("")) + ".mp4"
  }

  /** For a file that was chosen, the writer and the publisher are given
      the same video name. */
  lemma WorkerAndPublisherAgree(originalFilename: string)
    requires originalFilename != []
    ensures WorkerVideoFilename(Some(originalFilename)) == ArchivoOriginal(Some(originalFilename))
  {
  }

  /** The publisher derives the video URL from `archivo_original`; for a
      file name taken from a path's base name this is `archivo_original`
      itself. */
  lemma PublisherKeepsArchivoOriginal(path: string)
    requires Basename(path) != [] && !AllDots(Stem(Basename(path)))
    ensures VideoFilename(ArchivoOriginal(Some(Basename(path)))) == ArchivoOriginal(Some(Basename(path)))
  {
    var b := Basename(path);
    assert b == Stem(b) + Ext(b);
    assert forall c :: c in Stem(b) ==> c in b;
    VideoFilenameOfVideo(Stem(b));
  }

  // ---------------------------------------------------------------------
  // Files already in the folder when the watcher starts

  /** `x` is the full path and modification time of a regular file of the
      listing with a media extension. */
  predicate Listed(folder: string, listing: seq<DirEntry>, x: (string, int)) {
    exists e :: e in listing && e.isFile && HasMediaExtension(e.name) && x == (PathJoin(folder, e.name), e.mtime)
  }

  /** The audio and video files of a listing, as full paths with their
      modification times, in listing order. */
  function PendingFiles(folder: string, listing: seq<DirEntry>): seq<(string, int)>
    decreases |listing|
  {
    if listing == [] then []
    else
      var e := listing[0];
      (if e.isFile && HasMediaExtension(e.name) then [(PathJoin(folder, e.name), e.mtime)] else [])
      + PendingFiles(folder, listing[1..])
  }

  /** Only media files of the listing are kept. */
  lemma {:induction false} PendingFilesSound(folder: string, listing: seq<DirEntry>)
    ensures forall x :: x in PendingFiles(folder, listing) ==> Listed(folder, listing, x)
    decreases |listing|
  {
    if listing != [] {
      PendingFilesSound(folder, listing[1..]);
      forall x | x in PendingFiles(folder, listing[1..])
        ensures Listed(folder, listing, x)
      {
        var e :| e in listing[1..] && e.isFile && HasMediaExtension(e.name) && x == (PathJoin(folder, e.name), e.mtime);
        assert e in listing;
      }
    }
  }

  predicate SortedByTime(s: seq<(string, int)>) {
    forall i, j :: 0 <= i < j < |s| ==> s[i].1 <= s[j].1
  }

  /** Every element of `s` is no later than `t`. */
  predicate NoLaterThan(s: seq<(string, int)>, t: int) {
    forall k :: 0 <= k < |s| ==> s[k].1 <= t
  }

  /** `x` placed after every element of `s` not later than it. */
  function Insert(s: seq<(string, int)>, x: (string, int)): seq<(string, int)>
    decreases |s|
  {
    if s == [] then [x]
    else if s[|s| - 1].1 <= x.1 then s + [x]
    else Insert(s[..|s| - 1], x) + [s[|s| - 1]]
  }

  lemma {:induction false} InsertNoLaterThan(s: seq<(string, int)>, x: (string, int), t: int)
    requires NoLaterThan(s, t) && x.1 <= t
    ensures NoLaterThan(Insert(s, x), t)
    decreases |s|
  {
    if s != [] && s[|s| - 1].1 > x.1 {
      InsertNoLaterThan(s[..|s| - 1], x, t);
    }
  }

  lemma {:induction false} InsertSorted(s: seq<(string, int)>, x: (string, int))
    requires SortedByTime(s)
    ensures SortedByTime(Insert(s, x))
    decreases |s|
  {
    if s != [] && s[|s| - 1].1 > x.1 {
      var init := s[..|s| - 1];
      var last := s[|s| - 1];
      InsertSorted(init, x);
      InsertNoLaterThan(init, x, last.1);
      var r := Insert(init, x);
      assert Insert(s, x) == r + [last];
      assert forall i, j :: 0 <= i < j < |r| + 1 ==> (r + [last])[i].1 <= (r + [last])[j].1 by {
        forall i, j | 0 <= i < j < |r| + 1 ensures (r + [last])[i].1 <= (r + [last])[j].1 {
          if j < |r| {
            assert (r + [last])[i] == r[i] && (r + [last])[j] == r[j];
          } else {
            assert (r + [last])[i] == r[i];
          }
        }
      }
    }
  }

  lemma {:induction false} InsertPermutes(s: seq<(string, int)>, x: (string, int))
    ensures multiset(Insert(s, x)) == multiset(s) + multiset{x}
    decreases |s|
  {
    if s != [] && s[|s| - 1].1 > x.1 {
      InsertPermutes(s[..|s| - 1], x);
      assert s == s[..|s| - 1] + [s[|s| - 1]];
    }
  }

  /** `sorted(..., key=getmtime)`: a stable sort by modification time. */
  function SortByTime(s: seq<(string, int)>): seq<(string, int)>
    decreases |s|
  {
    if s == [] then [] else Insert(SortByTime(s[..|s| - 1]), s[|s| - 1])
  }

  /** The sort orders its input by time. */
  lemma {:induction false} SortByTimeSorted(s: seq<(string, int)>)
    ensures SortedByTime(SortByTime(s))
    decreases |s|
  {
    if s != [] {
      SortByTimeSorted(s[..|s| - 1]);
      InsertSorted(SortByTime(s[..|s| - 1]), s[|s| - 1]);
    }
  }

  /** The sort keeps every element, as often as it occurs. */
  lemma {:induction false} SortByTimePermutes(s: seq<(string, int)>)
    ensures multiset(SortByTime(s)) == multiset(s)
    decreases |s|
  {
    if s != [] {
      var init, x := s[..|s| - 1], s[|s| - 1];
      SortByTimePermutes(init);
      InsertPermutes(SortByTime(init), x);
      assert s == init + [x];
    }
  }

  function PathsOf(s: seq<(string, int)>): (r: seq<string>)
    ensures |r| == |s| && forall k :: 0 <= k < |s| ==> r[k] == s[k].0
  {
    seq(|s|, k requires 0 <= k < |s| => s[k].0)
  }

  /** The files the watcher queues on start, oldest first. */
  function ExistingFiles(folder: string, listing: seq<DirEntry>): seq<(string, int)> {
    SortByTime(PendingFiles(folder, listing))
  }

  /** Exactly the media files of the listing are queued, each as often as
      it is listed, oldest first, and nothing else. */
  lemma ExistingFilesSpec(folder: string, listing: seq<DirEntry>)
    ensures SortedByTime(ExistingFiles(folder, listing))
    ensures multiset(ExistingFiles(folder, listing)) == multiset(PendingFiles(folder, listing))
    ensures forall x :: x in ExistingFiles(folder, listing) ==> Listed(folder, listing, x)
  {
    SortByTimeSorted(PendingFiles(folder, listing));
    SortByTimePermutes(PendingFiles(folder, listing));
    PendingFilesSound(folder, listing);
    forall x | x in ExistingFiles(folder, listing)
      ensures Listed(folder, listing, x)
    {
      assert x in multiset(ExistingFiles(folder, listing));
    }
  }

  /** Every media file of the listing is among those queued. */
  lemma {:induction false} PendingFilesComplete(folder: string, listing: seq<DirEntry>, e: DirEntry)
    requires e in listing && e.isFile && HasMediaExtension(e.name)
    ensures (PathJoin(folder, e.name), e.mtime) in ExistingFiles(folder, listing)
    decreases |listing|
  {
    var x := (PathJoin(folder, e.name), e.mtime);
    if listing[0] != e {
      PendingFilesComplete(folder, listing[1..], e);
      SortByTimePermutes(PendingFiles(folder, listing[1..]));
      assert x in multiset(PendingFiles(folder, listing[1..]));
    }
    assert x in multiset(PendingFiles(folder, listing));
    SortByTimePermutes(PendingFiles(folder, listing));
    assert x in multiset(ExistingFiles(folder, listing));
  }

  // ---------------------------------------------------------------------
  // The trash

  /** `strftime('%H%M%S')`. */
  function Hhmmss(now: DateTime): (r: string)
    requires now.Valid()
    ensures |r| == 6 && forall k :: 0 <= k < |r| ==> '0' <= r[k] <= '9'
  {
    Padded(now.hour, 2) + Padded(now.minute, 2) + Padded(now.second, 2)
  }

  const TrashFolder := "papelera"

  /** Where `_mover_a_papelera` moves `audio`: `papelera/` beside it under
      the same name, or, when that name is taken, under
      `{stem}_{HHMMSS}{ext}`. */
  function TrashDestination(audio: string, existing: set<string>, now: DateTime): string
    requires now.Valid()
  {
    var trashDir := PathJoin(Dirname(audio), TrashFolder);
    var name := Basename(audio);
    var destino := PathJoin(trashDir, name);
    if destino !in existing then destino
    else PathJoin(trashDir, Stem(name) + "_" + Hhmmss(now) + Ext(name))
  }

  /** The destination is always a plain name in `papelera/` beside the
      file, and it keeps the file's name exactly when that name is free
      there. */
  lemma TrashDestinationInTrash(audio: string, existing: set<string>, now: DateTime)
    requires now.Valid()
    ensures var trashDir := PathJoin(Dirname(audio), TrashFolder);
            var r := TrashDestination(audio, existing, now);
            Sep !in Basename(r) && r == PathJoin(trashDir, Basename(r)) &&
            (Basename(r) == Basename(audio) <==> PathJoin(trashDir, Basename(audio)) !in existing)
  {
    var trashDir := PathJoin(Dirname(audio), TrashFolder);
    var name := Basename(audio);
    if PathJoin(trashDir, name) !in existing {
      BasenameOfJoin(trashDir, name);
    } else {
      StampedInTrash(trashDir, name, Hhmmss(now));
    }
  }

  lemma StampedInTrash(trashDir: string, name: string, stamp: string)
    requires Sep !in name
    requires forall k :: 0 <= k < |stamp| ==> '0' <= stamp[k] <= '9'
    ensures var stamped := Stem(name) + "_" + stamp + Ext(name);
            Sep !in stamped && Basename(PathJoin(trashDir, stamped)) == stamped && stamped != name
  {
    var stamped := Stem(name) + "_" + stamp + Ext(name);
    SplitExtShape(name);
    assert name == Stem(name) + Ext(name);
    assert forall c :: c in Stem(name) ==> c in name;
    assert forall c :: c in Ext(name) ==> c in name;
    assert Sep !in stamped;
    BasenameOfJoin(trashDir, stamped);
    assert |stamped| > |name|;
  }

  /** The move `_mover_a_papelera` makes, if any: none when there is no
      file or it no longer exists. */
  function TrashMove(archivoAudio: Option<string>, existing: set<string>, now: DateTime): (m: Option<(string, string)>)
    requires now.Valid()
    ensures m.Some? <==> archivoAudio.Some? && archivoAudio.value != [] && archivoAudio.value in existing
    ensures m.Some? ==> m.value.0 == archivoAudio.value
  {
    if archivoAudio.None? || archivoAudio.value == [] || archivoAudio.value !in existing then None
    else Some((archivoAudio.value, TrashDestination(archivoAudio.value, existing, now)))
  }

  /** When the name is free in the trash, the file keeps its name. */
  lemma TrashKeepsFreeName(audio: string, existing: set<string>, now: DateTime)
    requires now.Valid()
    requires PathJoin(PathJoin(Dirname(audio), TrashFolder), Basename(audio)) !in existing
    ensures Basename(TrashDestination(audio, existing, now)) == Basename(audio)
  {
    BasenameOfJoin(PathJoin(Dirname(audio), TrashFolder), Basename(audio));
  }

  /** A base name with a stamp of digits put before its extension splits
      into the stamped stem and the old extension, and is still a base
      name. */
  lemma {:induction false} StampedNameSplits(name: string, stamp: string)
    requires Sep !in name && Ext(name) != []
    requires forall k :: 0 <= k < |stamp| ==> '0' <= stamp[k] <= '9'
    ensures Sep !in Stem(name) + "_" + stamp + Ext(name)
    ensures SplitExt(Stem(name) + "_" + stamp + Ext(name)) == (Stem(name) + "_" + stamp, Ext(name))
  {
    var stem := Stem(name) + "_" + stamp;
    var ext := Ext(name);
    assert name == Stem(name) + ext;
    assert forall c :: c in Stem(name) ==> c in name;
    assert Sep !in stem;
    assert stem[|Stem(name)|] == '_';
    assert forall c :: c in ext[1..] ==> c in ext;
    SplitExtOfNamed(stem, ext);
    assert stem + ext == Stem(name) + "_" + stamp + Ext(name);
  }

  /** When the name is taken, the new name is the old stem with the time
      appended, and it keeps the old extension. */
  lemma TrashRenamesTakenName(audio: string, existing: set<string>, now: DateTime)
    requires now.Valid()
    requires PathJoin(PathJoin(Dirname(audio), TrashFolder), Basename(audio)) in existing
    requires Ext(Basename(audio)) != []
    ensures var name := Basename(audio);
            var dest := Basename(TrashDestination(audio, existing, now));
            dest == Stem(name) + "_" + Hhmmss(now) + Ext(name) &&
            SplitExt(dest) == (Stem(name) + "_" + Hhmmss(now), Ext(name))
  {
    var name := Basename(audio);
    StampedNameSplits(name, Hhmmss(now));
    BasenameOfJoin(PathJoin(Dirname(audio), TrashFolder), Stem(name) + "_" + Hhmmss(now) + Ext(name));
  }

  // ---------------------------------------------------------------------
  // The main window

  class PublicadorApp {
    var processing: bool
    var autoPublishPending: bool
    var watcherActive: bool
    /** `_mp3_queue`, oldest first. */
    var queue: seq<string>
    var archivoAudio: Option<string>
    var originalFilename: Option<string>
    var draft: DraftText
    /** Whether the verify and publish buttons are enabled. */
    var buttonsEnabled: bool
    /** The link shown after publishing. */
    var publishedUrl: string
    var scheduled: seq<Event>
    var reviews: seq<Review>
    /** The file moves made into the trash, oldest first. */
    var moves: seq<(string, string)>
    /** The handler of the running watcher. */
    var handler: Mp3Handler?
    const stepIndicator: StepIndicator
    const toggleWatcher: ToggleSwitch

    /** The pipeline's own consistency: auto-publish only for a file in
        flight, a file in flight has been chosen, and a file name is shown
        exactly when a file is chosen. */
    predicate Valid()
      reads this
    {
      && (autoPublishPending ==> processing)
      && (processing ==> archivoAudio.Some?)
      && (originalFilename.Some? <==> archivoAudio.Some?)
    }

    /** The draft as the handlers read it from the widgets. */
    function Draft(): Article
      reads this
    {
      DraftOf(draft)
    }

    /** The window as built, on the audio step, with the watcher switch off
        and the watcher not started. `families` is the font list the step
        indicator inspects. */
    constructor (families: Option<seq<string>>)
      ensures Valid() && !processing && !autoPublishPending && !watcherActive
      ensures queue == [] && archivoAudio.None? && draft == EmptyDraft
      ensures scheduled == [] && reviews == [] && moves == [] && handler == null
      ensures stepIndicator.AtStart() && !toggleWatcher.on && toggleWatcher.hasCommand
      ensures fresh(stepIndicator) && fresh(toggleWatcher)
    {
      processing := false;
      autoPublishPending := false;
      watcherActive := false;
      queue := [];
      archivoAudio := None;
      originalFilename := None;
      draft := EmptyDraft;
      buttonsEnabled := true;
      publishedUrl := "";
      scheduled := [];
      reviews := [];
      moves := [];
      handler := null;
      stepIndicator := new StepIndicator(families);
      toggleWatcher := new ToggleSwitch(true, false);
    }

    /** `_show_step(idx)`: the indicator shows `idx` as current and every
        earlier step as completed. */
    method ShowStep(idx: int)
      modifies stepIndicator
      ensures stepIndicator.current == idx
      ensures forall k :: k in stepIndicator.completed <==> 0 <= k < idx
    {
      var completed: seq<int> := if idx <= 0 then [] else seq(idx, k => k);
      forall k
        ensures k in completed <==> 0 <= k < idx
      {
        if 0 <= k < idx {
          assert completed[k] == k;
        }
      }
      stepIndicator.SetStep(idx, Some(completed));
    }

    /** `_reset_flow`: back to the audio step with the draft, the file and
        both flags cleared; with the watcher on, the oldest queued file
        leaves the queue and is detected 800 ms later. */
    method ResetFlow()
      modifies this`archivoAudio, this`originalFilename, this`processing, this`autoPublishPending
      modifies this`draft, this`buttonsEnabled, this`queue, this`scheduled, stepIndicator
      ensures Valid() && !processing && !autoPublishPending
      ensures archivoAudio.None? && originalFilename.None? && draft == EmptyDraft && buttonsEnabled
      ensures stepIndicator.current == StepAudio && stepIndicator.completed == {}
      ensures if watcherActive && old(queue) != [] then
                queue == old(queue)[1..] && scheduled == old(scheduled) + [Event(800, Detect(old(queue)[0]))]
              else
                queue == old(queue) && scheduled == old(scheduled)
    {
      archivoAudio := None;
      originalFilename := None;
      processing := false;
      autoPublishPending := false;
      stepIndicator.Reset();
      draft := EmptyDraft;
      buttonsEnabled := true;
      ShowStep(StepAudio);
      assert stepIndicator.completed == {} by {
        forall k | k in stepIndicator.completed
          ensures false
        {
        }
      }
      if watcherActive && queue != [] {
        var nextPath := queue[0];
        queue := queue[1..];
        scheduled := scheduled + [Event(800, Detect(nextPath))];
      }
    }

    /** `_on_mp3_detected(path)`: while a file is in flight the new one
        joins the back of the queue and nothing else changes; otherwise it
        becomes the file in flight, to be published automatically, and
        processing starts. */
    method OnMp3Detected(path: string)
      requires Valid()
      modifies this`queue, this`processing, this`archivoAudio, this`originalFilename
      modifies this`autoPublishPending, this`scheduled, stepIndicator
      ensures Valid() && processing
      ensures old(processing) ==>
                && queue == old(queue) + [path]
                && autoPublishPending == old(autoPublishPending)
                && archivoAudio == old(archivoAudio) && originalFilename == old(originalFilename)
                && scheduled == old(scheduled) && unchanged(stepIndicator)
      ensures !old(processing) ==>
                && queue == old(queue)
                && autoPublishPending && archivoAudio == Some(path) && originalFilename == Some(Basename(path))
                && scheduled == old(scheduled) + [Event(0, ProcessingWorker)]
                && stepIndicator.current == StepProcess
                && (forall k :: k in stepIndicator.completed <==> 0 <= k < StepProcess)
    {
      if processing {
        queue := queue + [path];
        return;
      }
      processing := true;
      archivoAudio := Some(path);
      originalFilename := Some(Basename(path));
      autoPublishPending := true;
      ShowStep(StepProcess);
      scheduled := scheduled + [Event(0, ProcessingWorker)];
    }

    /** `_seleccionar_audio`: `filepath` is what the file dialog returned,
        "" when it was cancelled, which changes nothing. A chosen file
        becomes the file in flight without auto-publishing; the flag
        `processing` is not consulted. */
    method SeleccionarAudio(filepath: string)
      requires Valid()
      modifies this`processing, this`archivoAudio, this`originalFilename
      modifies this`autoPublishPending, this`scheduled, stepIndicator
      ensures Valid()
      ensures filepath == [] ==> unchanged(this) && unchanged(stepIndicator)
      ensures filepath != [] ==>
                && archivoAudio == Some(filepath) && originalFilename == Some(Basename(filepath))
                && processing && !autoPublishPending
                && scheduled == old(scheduled) + [Event(0, ProcessingWorker)]
                && stepIndicator.current == StepProcess
                && (forall k :: k in stepIndicator.completed <==> 0 <= k < StepProcess)
    {
      if filepath == [] {
        return;
      }
      archivoAudio := Some(filepath);
      originalFilename := Some(Basename(filepath));
      autoPublishPending := false;
      processing := true;
      ShowStep(StepProcess);
      scheduled := scheduled + [Event(0, ProcessingWorker)];
    }

    /** `_procesamiento_ok(noticia)`: the draft is filled, the edit step
        shown, and in automatic mode verification starts 400 ms later. */
    method ProcesamientoOk(noticia: Article)
      modifies this`draft, this`scheduled, stepIndicator
      ensures draft == FilledDraft(noticia)
      ensures stepIndicator.current == StepEdit
      ensures forall k :: k in stepIndicator.completed <==> 0 <= k < StepEdit
      ensures scheduled == old(scheduled) + (if autoPublishPending then [Event(400, BeginVerification(true))] else [])
    {
      draft := FilledDraft(noticia);
      ShowStep(StepEdit);
      if autoPublishPending {
        scheduled := scheduled + [Event(400, BeginVerification(true))];
      }
    }

    /** `_procesamiento_error(msg)`: the file is dropped from flight and
        the window resets 5 s later. */
    method ProcesamientoError(msg: string)
      requires Valid()
      modifies this`processing, this`autoPublishPending, this`scheduled
      ensures Valid() && !processing && !autoPublishPending
      ensures scheduled == old(scheduled) + [Event(5000, FlowReset)]
    {
      processing := false;
      autoPublishPending := false;
      scheduled := scheduled + [Event(5000, FlowReset)];
    }

    /** `_iniciar_verificacion(auto_publish)`: the buttons are disabled and
        the verification worker starts on the current draft. */
    method IniciarVerificacion(autoPublish: bool)
      modifies this`buttonsEnabled, this`scheduled
      ensures !buttonsEnabled
      ensures scheduled == old(scheduled) + [Event(0, VerificationWorker(DraftOf(draft), autoPublish))]
    {
      buttonsEnabled := false;
      scheduled := scheduled + [Event(0, VerificationWorker(Draft(), autoPublish))];
    }

    /** `_mostrar_verificacion`: with no corrections a publish follows
        600 ms later in automatic mode; otherwise the review dialog opens
        over a snapshot of the draft and nothing is published until its
        apply button is used. */
    method MostrarVerificacion(corrections: seq<Correction>, corrected: Article, autoPublish: bool)
      modifies this`buttonsEnabled, this`scheduled, this`reviews
      ensures buttonsEnabled
      ensures corrections == [] ==>
                && scheduled == old(scheduled) + (if autoPublish then [Event(600, PublishStep)] else [])
                && reviews == old(reviews)
      ensures corrections != [] ==>
                && scheduled == old(scheduled)
                && reviews == old(reviews) + [Review(corrections, corrected, DraftOf(draft), autoPublish)]
    {
      buttonsEnabled := true;
      if corrections == [] {
        if autoPublish {
          scheduled := scheduled + [Event(600, PublishStep)];
        }
        return;
      }
      reviews := reviews + [Review(corrections, corrected, Draft(), autoPublish)];
    }

    /** `_verificacion_error(msg)`: only automatic publishing is called
        off; the file stays in flight. */
    method VerificacionError(msg: string)
      requires Valid()
      modifies this`buttonsEnabled, this`autoPublishPending
      ensures Valid() && buttonsEnabled && !autoPublishPending
    {
      buttonsEnabled := true;
      autoPublishPending := false;
    }

    /** `_aplicar_correcciones(texto_corregido, auto_publish)`: the non-empty
        corrected fields replace the draft's, and a publish follows 800 ms
        later in automatic mode. */
    method AplicarCorrecciones(tc: Article, autoPublish: bool)
      modifies this`draft, this`scheduled
      ensures draft == CorrectedDraft(old(draft), tc)
      ensures scheduled == old(scheduled) + (if autoPublish then [Event(800, PublishStep)] else [])
    {
      var d := draft;
      if tc.titulo != [] {
        d := d.(titulo := tc.titulo);
      }
      if tc.entradilla != [] {
        d := d.(entradilla := tc.entradilla);
      }
      if tc.contenido != [] {
        d := d.(contenido := tc.contenido);
      }
      if tc.etiquetas != [] {
        d := d.(etiquetas := JoinTags(tc.etiquetas));
      }
      draft := d;
      if autoPublish {
        scheduled := scheduled + [Event(800, PublishStep)];
      }
    }

    /** `_publicar`: the publish step is shown and the worker starts on the
        current draft and the video name derived from the chosen file. */
    method Publicar()
      modifies this`publishedUrl, this`scheduled, stepIndicator
      ensures stepIndicator.current == StepPublish && publishedUrl == ""
      ensures forall k :: k in stepIndicator.completed <==> 0 <= k < StepPublish
      ensures scheduled == old(scheduled) +
                [Event(0, PublicationWorker(NewsData(DraftOf(draft), ArchivoOriginal(originalFilename))))]
    {
      ShowStep(StepPublish);
      publishedUrl := "";
      var newsData := NewsData(Draft(), ArchivoOriginal(originalFilename));
      scheduled := scheduled + [Event(0, PublicationWorker(newsData))];
    }

    /** `_mover_a_papelera`: `existing` is the set of paths that exist and
        `now` the clock. */
    method MoverAPapelera(existing: set<string>, now: DateTime)
      requires now.Valid()
      modifies this`moves
      ensures var m := TrashMove(archivoAudio, existing, now);
              moves == old(moves) + (if m.Some? then [m.value] else [])
    {
      if archivoAudio.None? || archivoAudio.value == [] || archivoAudio.value !in existing {
        return;
      }
      var audio := archivoAudio.value;
      var trashDir := PathJoin(Dirname(audio), TrashFolder);
      var destino := PathJoin(trashDir, Basename(audio));
      if destino in existing {
        var name := Basename(audio);
        destino := PathJoin(trashDir, Stem(name) + "_" + Hhmmss(now) + Ext(name));
      }
      moves := moves + [(audio, destino)];
    }

    /** `_publicacion_ok(url)`: the file goes to the trash, the link is
        shown, the publish step is marked done and the file leaves flight;
        with the watcher on the window resets 4 s later. */
    method PublicacionOk(url: Option<string>, existing: set<string>, now: DateTime)
      requires Valid() && now.Valid()
      modifies this`moves, this`publishedUrl, this`processing, this`autoPublishPending, this`scheduled
      modifies stepIndicator
      ensures Valid() && !processing && !autoPublishPending
      ensures var m := TrashMove(archivoAudio, existing, now);
              moves == old(moves) + (if m.Some? then [m.value] else [])
      ensures publishedUrl == url.GetOr("")
      ensures stepIndicator.completed == old(stepIndicator.completed) + {StepPublish}
      ensures stepIndicator.current == old(stepIndicator.current)
      ensures scheduled == old(scheduled) + (if watcherActive then [Event(4000, FlowReset)] else [])
    {
      MoverAPapelera(existing, now);
      publishedUrl := url.GetOr("");
      stepIndicator.CompleteStep(StepPublish);
      processing := false;
      autoPublishPending := false;
      if watcherActive {
        scheduled := scheduled + [Event(4000, FlowReset)];
      }
    }

    /** `_publicacion_error(msg)`: the file leaves flight; no reset is
        scheduled. */
    method PublicacionError(msg: string)
      requires Valid()
      modifies this`processing, this`autoPublishPending
      ensures Valid() && !processing && !autoPublishPending
    {
      processing := false;
      autoPublishPending := false;
    }

    /** `_limpiar_todo`: the draft fields are emptied. */
    method LimpiarTodo()
      modifies this`draft
      ensures draft == EmptyDraft
    {
      draft := EmptyDraft;
    }

    /** `_start_watcher`: `hasWatchdog` is whether the watch library
        loaded, `settings` what `load_settings` returns, `folderIsDir`
        whether the folder is a directory and `listing` its entries. It
        fails, switching the toggle off and leaving the watcher as it was,
        when the library is missing or the folder is unset or not a
        directory. Otherwise the files already there are marked as
        processed by the new handler and scheduled for detection, oldest
        first. */
    method StartWatcher(hasWatchdog: bool, settings: SettingsRecord, folderIsDir: bool, listing: seq<DirEntry>)
      modifies this`watcherActive, this`handler, this`scheduled, stepIndicator, toggleWatcher
      ensures !CanWatch(hasWatchdog, settings, folderIsDir) ==>
                && watcherActive == old(watcherActive) && handler == old(handler)
                && !toggleWatcher.on && toggleWatcher.commandCalls == old(toggleWatcher.commandCalls)
                && scheduled == old(scheduled) && unchanged(stepIndicator)
      ensures CanWatch(hasWatchdog, settings, folderIsDir) ==>
                && watcherActive && handler != null && fresh(handler)
                && scheduled == old(scheduled) + StartupDetections(settings, listing)
                && handler.processed == StartupFiles(settings, listing)
                && handler.polling == [] && handler.notified == []
                && unchanged(toggleWatcher)
                && (old(stepIndicator.current) == StepAudio ==>
                      stepIndicator.current == StepAudio && stepIndicator.completed == {})
                && (old(stepIndicator.current) != StepAudio ==> unchanged(stepIndicator))
    {
      if !hasWatchdog {
        toggleWatcher.Set(false);
        return;
      }
      var folder := WatchFolder(settings);
      if folder == [] || !folderIsDir {
        toggleWatcher.Set(false);
        return;
      }
      Observe(folder, listing);
    }

    /** The rest of `_start_watcher` once the folder is known: a new
        handler watches it, the audio step is shown again if current, and
        every file already in the folder is marked as processed and
        scheduled for detection, oldest first. */
    method Observe(folder: string, listing: seq<DirEntry>)
      modifies this`watcherActive, this`handler, this`scheduled, stepIndicator
      ensures watcherActive && handler != null && fresh(handler)
      ensures scheduled == old(scheduled) + DetectAll(PathsOf(ExistingFiles(folder, listing)))
      ensures handler.processed == (set p | p in PathsOf(ExistingFiles(folder, listing)))
      ensures handler.polling == [] && handler.notified == []
      ensures old(stepIndicator.current) == StepAudio ==>
                stepIndicator.current == StepAudio && stepIndicator.completed == {}
      ensures old(stepIndicator.current) != StepAudio ==> unchanged(stepIndicator)
    {
      var h := new Mp3Handler();
      handler := h;
      watcherActive := true;
      if stepIndicator.current == StepAudio {
        ShowStep(StepAudio);
        assert stepIndicator.completed == {} by {
          forall k | k in stepIndicator.completed
            ensures false
          {
          }
        }
      }
      var existing := PathsOf(ExistingFiles(folder, listing));
      var sched := Prescan(h, existing);
      scheduled := scheduled + sched;
    }

    /** `_stop_watcher`. */
    method StopWatcher()
      modifies this`handler, this`watcherActive
      ensures !watcherActive && handler == null
    {
      handler := null;
      watcherActive := false;
    }

    /** `_on_toggle_watcher(is_on)`: off stops the watcher; on starts it,
        with everything `StartWatcher` does. */
    method OnToggleWatcher(isOn: bool, hasWatchdog: bool, settings: SettingsRecord, folderIsDir: bool,
                           listing: seq<DirEntry>)
      requires Valid()
      modifies this`watcherActive, this`handler, this`scheduled, stepIndicator, toggleWatcher
      ensures Valid()
      ensures !isOn ==> !watcherActive && handler == null && scheduled == old(scheduled)
                        && unchanged(stepIndicator, toggleWatcher)
      ensures isOn && !CanWatch(hasWatchdog, settings, folderIsDir) ==>
                && watcherActive == old(watcherActive) && handler == old(handler)
                && !toggleWatcher.on && toggleWatcher.commandCalls == old(toggleWatcher.commandCalls)
                && scheduled == old(scheduled) && unchanged(stepIndicator)
      ensures isOn && CanWatch(hasWatchdog, settings, folderIsDir) ==>
                && watcherActive && handler != null && fresh(handler)
                && scheduled == old(scheduled) + StartupDetections(settings, listing)
                && handler.processed == StartupFiles(settings, listing)
                && handler.polling == [] && handler.notified == []
                && unchanged(toggleWatcher)
                && (old(stepIndicator.current) == StepAudio ==>
                      stepIndicator.current == StepAudio && stepIndicator.completed == {})
                && (old(stepIndicator.current) != StepAudio ==> unchanged(stepIndicator))
    {
      if isOn {
        StartWatcher(hasWatchdog, settings, folderIsDir, listing);
      } else {
        StopWatcher();
      }
    }

    /** `_on_settings_saved`: a running watcher is stopped and started
        again on the new settings. A restart that cannot watch leaves the
        watcher stopped and the switch off; one that can schedules every
        media file still in the folder again, even those already queued or
        in flight. */
    method OnSettingsSaved(hasWatchdog: bool, settings: SettingsRecord, folderIsDir: bool, listing: seq<DirEntry>)
      requires Valid()
      modifies this`watcherActive, this`handler, this`scheduled, stepIndicator, toggleWatcher
      ensures Valid()
      ensures !old(watcherActive) ==> unchanged(this) && unchanged(stepIndicator, toggleWatcher)
      ensures old(watcherActive) && !CanWatch(hasWatchdog, settings, folderIsDir) ==>
                && !watcherActive && handler == null
                && !toggleWatcher.on && toggleWatcher.commandCalls == old(toggleWatcher.commandCalls)
                && scheduled == old(scheduled) && unchanged(stepIndicator)
      ensures old(watcherActive) && CanWatch(hasWatchdog, settings, folderIsDir) ==>
                && watcherActive && handler != null && fresh(handler)
                && scheduled == old(scheduled) + StartupDetections(settings, listing)
                && handler.processed == StartupFiles(settings, listing)
                && handler.polling == [] && handler.notified == []
                && unchanged(toggleWatcher)
                && (old(stepIndicator.current) == StepAudio ==>
                      stepIndicator.current == StepAudio && stepIndicator.completed == {})
                && (old(stepIndicator.current) != StepAudio ==> unchanged(stepIndicator))
    {
      if watcherActive {
        StopWatcher();
        StartWatcher(hasWatchdog, settings, folderIsDir, listing);
      }
    }
  }

  /** Whether `_start_watcher` gets past its checks: the watch library
      loaded and the configured folder is set and is a directory. */
  predicate CanWatch(hasWatchdog: bool, settings: SettingsRecord, folderIsDir: bool) {
    hasWatchdog && WatchFolder(settings) != [] && folderIsDir
  }

  /** The media files found in the watch folder when the watcher starts,
      and the detections scheduled for them. */
  function StartupFiles(settings: SettingsRecord, listing: seq<DirEntry>): set<string> {
    set p | p in PathsOf(ExistingFiles(WatchFolder(settings), listing))
  }

  function StartupDetections(settings: SettingsRecord, listing: seq<DirEntry>): seq<Event> {
    DetectAll(PathsOf(ExistingFiles(WatchFolder(settings), listing)))
  }

  /** The prescan loop of `_start_watcher`: each file is marked as
      processed, so the observer will not report it again, and its
      detection is scheduled at once. */
  method Prescan(h: Mp3Handler, existing: seq<string>) returns (sched: seq<Event>)
    requires h.processed == {} && h.polling == [] && h.notified == []
    modifies h
    ensures sched == DetectAll(existing)
    ensures h.processed == (set p | p in existing)
    ensures h.polling == [] && h.notified == []
  {
    sched := [];
    var i := 0;
    while i < |existing|
      invariant 0 <= i <= |existing|
      invariant h.processed == set p | p in existing[..i]
      invariant h.polling == [] && h.notified == []
      invariant sched == DetectAll(existing[..i])
    {
      var filepath := existing[i];
      h.processed := h.processed + {filepath};
      sched := sched + [Event(0, Detect(filepath))];
      assert existing[..i + 1] == existing[..i] + [filepath];
      i := i + 1;
    }
    assert existing[..i] == existing;
  }

  /** The detections scheduled for the files found on start, in order. */
  function DetectAll(paths: seq<string>): (r: seq<Event>)
    ensures |r| == |paths| && forall k :: 0 <= k < |paths| ==> r[k] == Event(0, Detect(paths[k]))
  {
    seq(|paths|, k requires 0 <= k < |paths| => Event(0, Detect(paths[k])))
  }

  /** Two files arriving together: the first goes into processing, the
      second waits at the back of the queue, and the reset after the first
      publication takes it out and schedules it, leaving the queue empty. */
  method TwoArrivals(app: PublicadorApp, first: string, second: string)
    requires app.Valid() && !app.processing && app.queue == [] && app.watcherActive
    modifies app, app.stepIndicator
    ensures app.queue == [] && !app.processing
    ensures app.scheduled == old(app.scheduled) + [Event(0, ProcessingWorker), Event(800, Detect(second))]
  {
    app.OnMp3Detected(first);
    assert app.archivoAudio == Some(first);
    app.OnMp3Detected(second);
    assert app.queue == [second];
    app.ResetFlow();
  }
}

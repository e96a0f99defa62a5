/** The session controller of the diary page: the recording flag and its audio buffer, the
    start and stop buttons, the entry cache that is loaded once per session, and one run of the
    page script from top to bottom. Device capture, the speech model and the document store are
    not modelled; what they return is passed in as parameters. */
module App {
  import opened Options
  import opened Text
  import opened Entries

  /** The default `sample_rate` of `start_recording` and `stop_recording`. */
  const SampleRate: nat := 44100
  /** The fixed length, in seconds, of the buffer `sd.rec` allocates. */
  const MaxSeconds: nat := 60

  /** The buffer `sd.rec` hands back: `frames` mono 16-bit samples at `sampleRate`, filled by the device. */
  datatype Capture = Capture(sampleRate: nat, frames: nat)

  /** What `wav.write` puts on disk: the rate it was given and the buffer it was handed. */
  datatype WavFile = WavFile(sampleRate: nat, data: Capture)

  // ---------------------------------------------------------------- file names

  /** `f"recording_{int(time.time())}.wav"`, with the whole seconds of the clock as `now`. */
  function FileName(now: nat): (r: string)
    ensures |r| == 14 + |NatToString(now)|
    ensures r[..10] == "recording_" && r[|r| - 4..] == ".wav"
    ensures r[10..|r| - 4] == NatToString(now)
  {
    "recording_" + NatToString(now) + ".wav"
  }

  /** Recordings stopped in different seconds go to different files. */
  lemma FileNameInjective(a: nat, b: nat)
    ensures FileName(a) == FileName(b) ==> a == b
  {
    if FileName(a) == FileName(b) {
      NatToStringInjective(a, b);
    }
  }

  // ---------------------------------------------------------------- start button

  datatype StartOutcome = MissingUserId | MissingTitle | Started

  /** The checks of the start button, in the order the page makes them: a user id first, then a
      title that is not blank after `strip()`. */
  function CheckStart(userId: string, title: string): (r: StartOutcome)
    ensures r == MissingUserId <==> userId == ""
    ensures r == MissingTitle <==> userId != "" && AllSpace(title)
    ensures r == Started <==> userId != "" && exists i :: 0 <= i < |title| && !IsSpace(title[i])
  {
    if userId == "" then MissingUserId
    else if Strip(title) == "" then MissingTitle
    else Started
  }

  // ---------------------------------------------------------------- stop button

  /** What pressing stop led to. `TranscriptionRaised` and `SaveRaised` are exceptions from the
      speech model or the store; they end the run of the page script. */
  datatype StopOutcome =
    | NothingToStop
    | TranscriptionRaised(file: string)
    | TranscriptionEmpty(file: string)
    | SaveRaised(file: string)
    | Saved(file: string, entry: Entry)

  /** The outcome once a recording was written to `file`: `transcript` is the speech model's answer
      (None when it raised), `docId` the id of the document the store created (None when it raised).
      An entry is saved only for a non-empty transcript that the store accepted. */
  function StopOutcomeOf(file: string, title: string, transcript: Option<string>, docId: Option<string>): (o: StopOutcome)
    ensures o != NothingToStop && o.file == file
    ensures o.Saved? <==> transcript.Some? && transcript.value != "" && docId.Some?
    ensures o.Saved? ==> o.entry == SavedEntry(title, transcript.value, docId.value)
    ensures transcript == None ==> o == TranscriptionRaised(file)
    ensures transcript == Some("") ==> o == TranscriptionEmpty(file)
    ensures transcript.Some? && transcript.value != "" && docId == None ==> o == SaveRaised(file)
  {
    match transcript
    case None => TranscriptionRaised(file)
    case Some(t) =>
      if t == "" then TranscriptionEmpty(file)
      else match docId
        case None => SaveRaised(file)
        case Some(id) => Saved(file, SavedEntry(title, t, id))
  }

  /** The cache after a save: the new entry first, then what was cached before (nothing if the
      cache was still absent). */
  function WithNewEntry(cache: Option<seq<Entry>>, e: Entry): (r: seq<Entry>)
    ensures |r| == |cache.GetOr([])| + 1
    ensures r[0] == e && r[1..] == cache.GetOr([])
  {
    [e] + cache.GetOr([])
  }

  // ---------------------------------------------------------------- display

  /** What the entries section shows. `Halted` is a run of the script that an exception ended. */
  datatype View = NoUser | Halted | NoEntries | Listing(items: seq<Item>)

  /** The entries section for a loaded cache: a notice for an empty one, otherwise the matching
      entries as labelled expanders. */
  function Display(cache: seq<Entry>, query: string): (v: View)
    ensures v == NoEntries <==> cache == []
    ensures cache != [] ==> v.Listing?
    ensures v.Listing? ==> |v.items| == |Filter(cache, query)| <= |cache|
    ensures v.Listing? ==> forall k :: 0 <= k < |v.items| ==>
              v.items[k].caption == Label(Filter(cache, query)[k], k) &&
              v.items[k].body == BodyShown(Filter(cache, query)[k])
  {
    if cache == [] then NoEntries else Listing(Items(Filter(cache, query)))
  }

  /** With an empty query every cached entry is listed, in cache order. */
  lemma DisplayEmptyQuery(cache: seq<Entry>)
    requires cache != []
    ensures Display(cache, "") == Listing(Items(cache))
  {
    FilterEmptyQuery(cache);
  }

  /** After a save, the new entry heads the list whenever it matches the query, labelled with its
      title and the clock placeholder; otherwise the list is the one the old cache gave. */
  lemma DisplayAfterSave(cache: Option<seq<Entry>>, title: string, text: string, docId: string, query: string)
    ensures Display(WithNewEntry(cache, SavedEntry(title, text, docId)), query).Listing?
    ensures var e := SavedEntry(title, text, docId);
            var v := Display(WithNewEntry(cache, e), query);
            Matches(e, query) ==>
              |v.items| == |Filter(cache.GetOr([]), query)| + 1 &&
              v.items[0] == Item(title + " - " + JustNowShown, text)
    ensures var e := SavedEntry(title, text, docId);
            !Matches(e, query) ==>
              Display(WithNewEntry(cache, e), query) == Listing(Items(Filter(cache.GetOr([]), query)))
  {
    var e := SavedEntry(title, text, docId);
    FilterAppend([e], cache.GetOr([]), query);
    assert WithNewEntry(cache, e) == [e] + cache.GetOr([]);
    LabelOfSaved(title, text, docId, 0);
  }

  // ---------------------------------------------------------------- state

  /** The working directory the recordings are written to. */
  class Directory {
    var files: map<string, WavFile>

    constructor (initial: map<string, WavFile>)
      ensures files == initial
    {
      files := initial;
    }
  }

  datatype Press = NoPress | PressStart | PressStop

  /** `st.session_state` as far as this page uses it. `fetches` counts the loads from the store. */
  class Session {
    var recording: bool
    var audioData: Option<Capture>
    var entries: Option<seq<Entry>>
    ghost var fetches: nat

    /** A buffer is held exactly while recording, and the store is asked for the entries at most
        once, never while something else fills the cache. */
    ghost predicate Valid()
      reads this
    {
      (recording <==> audioData.Some?) && fetches <= 1 && (entries == None ==> fetches == 0)
    }

    /** The `setdefault` calls of a fresh session. */
    constructor ()
      ensures Valid()
      ensures !recording && audioData == None && entries == None && fetches == 0
    {
      recording, audioData, entries := false, None, None;
      fetches := 0;
    }

    /** `start_recording`: raises the flag and takes a fresh buffer of `MaxSeconds` seconds. */
    method StartRecording(sampleRate: nat)
      requires Valid()
      modifies this
      ensures Valid()
      ensures recording && audioData == Some(Capture(sampleRate, MaxSeconds * sampleRate))
      ensures entries == old(entries) && fetches == old(fetches)
    {
      recording := true;
      audioData := Some(Capture(sampleRate, MaxSeconds * sampleRate));
    }

    /** `stop_recording`: nothing happens when idle; otherwise the flag drops, the buffer is written
        to a file named after the clock and released, and the file name is returned. */
    method StopRecording(dir: Directory, sampleRate: nat, now: nat) returns (file: Option<string>)
      requires Valid()
      modifies this, dir
      ensures Valid()
      ensures !old(recording) ==> file == None && unchanged(this) && unchanged(dir)
      ensures old(recording) ==> file == Some(FileName(now)) && !recording && audioData == None
      ensures old(recording) ==>
                dir.files == old(dir.files)[FileName(now) := WavFile(sampleRate, old(audioData).value)]
      ensures entries == old(entries) && fetches == old(fetches)
    {
      if !recording {
        return None;
      }
      recording := false;
      var name := FileName(now);
      dir.files := dir.files[name := WavFile(sampleRate, audioData.value)];
      audioData := None;
      file := Some(name);
    }

    /** The start button: records only when `CheckStart` lets it. */
    method OnStart(userId: string, title: string) returns (outcome: StartOutcome)
      requires Valid()
      modifies this
      ensures Valid()
      ensures outcome == CheckStart(userId, title)
      ensures outcome != Started ==> unchanged(this)
      ensures outcome == Started ==>
                recording && audioData == Some(Capture(SampleRate, MaxSeconds * SampleRate)) &&
                entries == old(entries) && fetches == old(fetches)
    {
      outcome := CheckStart(userId, title);
      if outcome == Started {
        StartRecording(SampleRate);
      }
    }

    /** The stop button. `title` is the title field at the time of the press, `transcript` and
        `docId` what the speech model and the store answer. After a save the new entry is put at
        the head of the cache and the recording is deleted; on every other path the file stays. */
    method OnStop(dir: Directory, title: string, now: nat, transcript: Option<string>, docId: Option<string>)
      returns (outcome: StopOutcome)
      requires Valid()
      modifies this, dir
      ensures Valid() && fetches == old(fetches)
      ensures !old(recording) ==> outcome == NothingToStop && unchanged(this) && unchanged(dir)
      ensures old(recording) ==> !recording && audioData == None
      ensures old(recording) ==> outcome == StopOutcomeOf(FileName(now), title, transcript, docId)
      ensures outcome.Saved? ==> entries == Some(WithNewEntry(old(entries), outcome.entry))
      ensures !outcome.Saved? ==> entries == old(entries)
      ensures old(recording) ==>
                var written := old(dir.files)[FileName(now) := WavFile(SampleRate, old(audioData).value)];
                dir.files == if outcome.Saved? then written - {FileName(now)} else written
    {
      var file := StopRecording(dir, SampleRate, now);
      if file == None {
        return NothingToStop;
      }
      outcome := StopOutcomeOf(file.value, title, transcript, docId);
      if outcome.Saved? {
        entries := Some(WithNewEntry(entries, outcome.entry));
        dir.files := dir.files - {file.value};
      }
    }

    /** The entries section. Without a user id nothing is loaded. Otherwise the cache is filled from
        the store only while absent (`fetched` is the store's answer, None when it raised) and then
        shown through the search `query`. */
    method Render(userId: string, query: string, fetched: Option<seq<Entry>>) returns (view: View)
      requires Valid()
      modifies this
      ensures Valid()
      ensures recording == old(recording) && audioData == old(audioData)
      ensures userId == "" ==> view == NoUser && unchanged(this)
      ensures userId != "" && old(entries).Some? ==>
                unchanged(this) && view == Display(entries.value, query)
      ensures userId != "" && old(entries) == None && fetched == None ==>
                view == Halted && unchanged(this)
      ensures userId != "" && old(entries) == None && fetched.Some? ==>
                entries == fetched && fetches == old(fetches) + 1 && view == Display(fetched.value, query)
    {
      if userId == "" {
        return NoUser;
      }
      if entries == None {
        if fetched == None {
          return Halted;
        }
        entries := fetched;
        fetches := fetches + 1;
      }
      view := Display(entries.value, query);
    }

    /** One run of the page script after an interaction: the pressed button's handler, then the
        entries section, unless the handler raised. */
    method Rerun(dir: Directory, userId: string, title: string, press: Press, now: nat,
                 transcript: Option<string>, docId: Option<string>, query: string, fetched: Option<seq<Entry>>)
      returns (started: Option<StartOutcome>, stopped: Option<StopOutcome>, view: View)
      requires Valid()
      modifies this, dir
      ensures Valid()
      ensures started == (if press == PressStart then Some(CheckStart(userId, title)) else None)
      ensures press == PressStop <==> stopped.Some?
      ensures press != PressStop ==> unchanged(dir)
      ensures press == NoPress ==> recording == old(recording) && audioData == old(audioData)
      ensures press == PressStart && started != Some(Started) ==>
                recording == old(recording) && audioData == old(audioData)
      ensures started == Some(Started) ==>
                recording && audioData == Some(Capture(SampleRate, MaxSeconds * SampleRate))
      ensures press == PressStop && old(recording) ==> !recording && audioData == None
      ensures press == PressStop && !old(recording) ==>
                stopped == Some(NothingToStop) && !recording && audioData == None
      ensures press == PressStop && old(recording) ==>
                stopped == Some(StopOutcomeOf(FileName(now), title, transcript, docId))
      ensures stopped.Some? && stopped.value.Saved? ==>
                entries == Some(WithNewEntry(old(entries), stopped.value.entry))
      ensures !(stopped.Some? && stopped.value.Saved?) && old(entries).Some? ==> entries == old(entries)
      ensures old(entries).Some? ==> entries.Some? && fetches == old(fetches)
      ensures stopped.Some? && (stopped.value.TranscriptionRaised? || stopped.value.SaveRaised?) ==> view == Halted
      ensures userId == "" && !view.Halted? ==> view == NoUser
      ensures userId != "" && !view.Halted? ==> entries.Some? && view == Display(entries.value, query)
      ensures view.Halted? ==>
                (stopped.Some? && (stopped.value.TranscriptionRaised? || stopped.value.SaveRaised?)) ||
                (userId != "" && old(entries) == None && !(stopped.Some? && stopped.value.Saved?) && fetched == None)
      ensures old(entries) == None && !(stopped.Some? && stopped.value.Saved?) ==>
                entries == (if view.NoUser? || view.Halted? then None else fetched)
      ensures press == PressStop && !old(recording) ==> unchanged(dir)
      ensures press == PressStop && old(recording) ==>
                var written := old(dir.files)[FileName(now) := WavFile(SampleRate, old(audioData).value)];
                dir.files == if stopped.value.Saved? then written - {FileName(now)} else written
    {
      started, stopped := None, None;
      if press == PressStart {
        var s := OnStart(userId, title);
        started := Some(s);
      } else if press == PressStop {
        var s := OnStop(dir, title, now, transcript, docId);
        stopped := Some(s);
        if s.TranscriptionRaised? || s.SaveRaised? {
          return started, stopped, Halted;
        }
      }
      view := Render(userId, query, fetched);
    }
  }
}

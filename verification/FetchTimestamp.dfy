/** GetIfChanged of py_utils/cloud_storage.py and its .fetchts shortcut: a call that
    finds the last fetch newer than the .sha1 file returns without hashing anything.

    Times are exact reals. CalculateHash is a parameter, not interpreted. */
module FetchTimestamp {
  import opened Basics

  type Content = string
  type Digest = string

  /** The .sha1 file: the digest it holds and its modification time. */
  datatype Sha1File = Sha1File(digest: Digest, mtime: real)

  /** The three local files: the binary, its .sha1 and its .fetchts. */
  datatype Files = Files(binary: Option<Content>, sha1: Option<Sha1File>, fetchTs: Option<real>)

  /** What _GetLocked does when it is called. */
  datatype Download = Arrives(content: Content) | Fails

  datatype Outcome = Returned(changed: bool) | Raised

  /** The binary has the hash that the .sha1 file names. */
  predicate Synced(hash: Content -> Digest, f: Files) {
    f.binary.Some? && f.sha1.Some? && hash(f.binary.value) == f.sha1.value.digest
  }

  /** The test that skips hashing. */
  predicate Shortcut(f: Files) {
    f.fetchTs.Some? && f.binary.Some? && f.sha1.Some? && f.fetchTs.value > f.sha1.value.mtime
  }

  /** The call gets as far as _GetLocked. */
  predicate MustFetch(hash: Content -> Digest, f: Files) {
    f.sha1.Some? && !Shortcut(f) && !Synced(hash, f)
  }

  /** One call at time `now`: the files it leaves and how it ends. */
  function Called(hash: Content -> Digest, f: Files, now: real, d: Download): (Files, Outcome) {
    if f.sha1.None? || Shortcut(f) then (f, Returned(false))
    else
      var stamped := f.(fetchTs := Some(now));
      if Synced(hash, f) then (stamped, Returned(false))
      else if d.Fails? then (stamped, Raised)
      else
        var fetched := stamped.(binary := Some(d.content));
        if Synced(hash, fetched) then (fetched, Returned(true)) else (fetched.(fetchTs := None), Raised)
  }

  /** How a call ends and what it changes: the outcome tells whether a download was needed and
      whether it brought the wanted content, the binary is replaced by a download that arrives,
      and the time stamp stays only if the call hashed and did not find a wrong download. */
  lemma CallMeaning(hash: Content -> Digest, f: Files, now: real, d: Download)
    ensures var (g, r) := Called(hash, f, now, d);
            var fetched := MustFetch(hash, f) && d.Arrives?;
            && (r == Returned(false) <==> !MustFetch(hash, f))
            && (r == Returned(true) <==> fetched && hash(d.content) == f.sha1.value.digest)
            && g.sha1 == f.sha1
            && g.binary == (if fetched then Some(d.content) else f.binary)
            && g.fetchTs == if f.sha1.None? || Shortcut(f) then f.fetchTs
                            else if fetched && r.Raised? then None else Some(now)
  {
  }

  /** The files as the code changes them, one write at a time. */
  class LocalFiles {
    var binary: Option<Content>
    var sha1: Option<Sha1File>
    var fetchTs: Option<real>

    function Snapshot(): Files
      reads this
    {
      Files(binary, sha1, fetchTs)
    }

    /** `download` is what _GetLocked would do if the call reaches it. */
    method GetIfChanged(hash: Content -> Digest, now: real, download: Download) returns (r: Outcome)
      modifies this
      ensures (Snapshot(), r) == Called(hash, old(Snapshot()), now, download)
      ensures r.Returned? && !old(Shortcut(Snapshot())) && sha1.Some? ==>
                Synced(hash, Snapshot()) && fetchTs == Some(now)
      ensures r == Returned(false) <==> !old(MustFetch(hash, Snapshot()))
      ensures r == Returned(true) <==>
                old(MustFetch(hash, Snapshot())) && download.Arrives? && hash(download.content) == sha1.value.digest
    {
      if sha1.None? {
        return Returned(false);
      }
      var expected := sha1.value.digest;
      if fetchTs.Some? && binary.Some? {
        if fetchTs.value > sha1.value.mtime {
          return Returned(false);
        }
      }
      fetchTs := Some(now);
      if binary.Some? && hash(binary.value) == expected {
        return Returned(false);
      }
      if download.Fails? {
        return Raised;
      }
      binary := Some(download.content);
      if hash(binary.value) != expected {
        fetchTs := None;
        return Raised;
      }
      return Returned(true);
    }
  }

  // ----- runs

  /** Everything that happens to the files. Besides GetIfChanged nobody writes the
      binary; edits of the .sha1 file and removals fall between calls. */
  datatype Change =
    | Call(download: Download)
    | EditSha1(digest: Digest)
    | RemoveSha1
    | RemoveBinary
    | RemoveFetchTs

  datatype Event = Event(at: real, change: Change)

  function After(hash: Content -> Digest, f: Files, e: Event): Files {
    match e.change
    case Call(d) => Called(hash, f, e.at, d).0
    case EditSha1(x) => f.(sha1 := Some(Sha1File(x, e.at)))
    case RemoveSha1 => f.(sha1 := None)
    case RemoveBinary => f.(binary := None)
    case RemoveFetchTs => f.(fetchTs := None)
  }

  /** The clock never goes back. */
  ghost predicate Chronological(start: real, events: seq<Event>)
    decreases events
  {
    events == [] || (start <= events[0].at && Chronological(events[0].at, events[1..]))
  }

  /** No recorded time lies in the future. */
  predicate Past(f: Files, now: real) {
    (f.sha1.Some? ==> f.sha1.value.mtime <= now) && (f.fetchTs.Some? ==> f.fetchTs.value <= now)
  }

  /** Wherever the shortcut applies, it tells the truth. */
  predicate Trusted(hash: Content -> Digest, f: Files) {
    Shortcut(f) ==> Synced(hash, f)
  }

  /** A failed download that leaves a new time stamp beside an old binary. */
  predicate Poisons(hash: Content -> Digest, f: Files, e: Event) {
    && e.change.Call? && e.change.download.Fails? && MustFetch(hash, f)
    && f.binary.Some? && f.sha1.value.mtime < e.at
  }

  ghost predicate NeverPoisons(hash: Content -> Digest, f: Files, events: seq<Event>)
    decreases events
  {
    events == [] || (!Poisons(hash, f, events[0]) && NeverPoisons(hash, After(hash, f, events[0]), events[1..]))
  }

  /** Every call that returns normally while the .sha1 file exists leaves the binary
      with the hash the file names, the calls that never hash included. */
  ghost predicate ReturnsSynced(hash: Content -> Digest, f: Files, events: seq<Event>)
    decreases events
  {
    events == [] ||
    (var e := events[0];
     var g := After(hash, f, e);
     && (e.change.Call? && Called(hash, f, e.at, e.change.download).1.Returned? && f.sha1.Some? ==> Synced(hash, g))
     && ReturnsSynced(hash, g, events[1..]))
  }

  /** A single event keeps the shortcut truthful exactly when it does not poison it. */
  lemma TrustStep(hash: Content -> Digest, f: Files, now: real, e: Event)
    requires Past(f, now) && now <= e.at && Trusted(hash, f)
    ensures Past(After(hash, f, e), e.at)
    ensures Trusted(hash, After(hash, f, e)) <==> !Poisons(hash, f, e)
  {
  }

  /** The freshness shortcut is sound over whole runs without poisoning failures. */
  lemma {:induction false} ShortcutIsSound(hash: Content -> Digest, f: Files, now: real, events: seq<Event>)
    requires Past(f, now) && Trusted(hash, f)
    requires Chronological(now, events) && NeverPoisons(hash, f, events)
    ensures ReturnsSynced(hash, f, events)
    decreases events
  {
    if events != [] {
      TrustStep(hash, f, now, events[0]);
      ShortcutIsSound(hash, After(hash, f, events[0]), events[0].at, events[1..]);
    }
  }

  /** Every continuation from `f` at time `now` returns only synced binaries. */
  ghost predicate SoundFrom(hash: Content -> Digest, f: Files, now: real) {
    forall events :: Chronological(now, events) && NeverPoisons(hash, f, events) ==> ReturnsSynced(hash, f, events)
  }

  /** For a call that raises, the guard is exact: every continuation of the run is
      sound if and only if the call did not leave a new stamp beside an old binary. */
  lemma RaisedCallIsHarmlessIff(hash: Content -> Digest, f: Files, now: real, e: Event)
    requires Past(f, now) && now <= e.at && Trusted(hash, f)
    requires e.change.Call? && Called(hash, f, e.at, e.change.download).1.Raised?
    ensures SoundFrom(hash, After(hash, f, e), e.at) <==>
            !(e.change.download.Fails? && f.binary.Some? && f.sha1.value.mtime < e.at)
  {
    var g := After(hash, f, e);
    TrustStep(hash, f, now, e);
    if Poisons(hash, f, e) {
      // The next call takes the shortcut and returns although the binary is the old one.
      var next := [Event(e.at, Call(Fails))];
      assert next[0] == Event(e.at, Call(Fails)) && next[1..] == [];
      assert Shortcut(g) && !Synced(hash, g) && Called(hash, g, e.at, Fails) == (g, Returned(false));
      assert After(hash, g, next[0]) == g;
      assert !Poisons(hash, g, next[0]) && Chronological(e.at, next) && NeverPoisons(hash, g, next);
      assert !ReturnsSynced(hash, g, next);
    } else {
      forall events | Chronological(e.at, events) && NeverPoisons(hash, g, events)
        ensures ReturnsSynced(hash, g, events)
      {
        ShortcutIsSound(hash, g, e.at, events);
      }
    }
  }

  /** A stale binary behind a shortcut stays until somebody intervenes: calls alone
      never repair it. */
  lemma {:induction false} PoisonPersists(hash: Content -> Digest, f: Files, events: seq<Event>)
    requires Shortcut(f) && !Synced(hash, f)
    requires forall k :: 0 <= k < |events| ==> events[k].change.Call?
    ensures events != [] ==> !ReturnsSynced(hash, f, events)
    ensures Ended(hash, f, events) == f
    decreases events
  {
    if events != [] {
      assert After(hash, f, events[0]) == f;
      PoisonPersists(hash, f, events[1..]);
    }
  }

  /** The files after all of `events`. */
  ghost function Ended(hash: Content -> Digest, f: Files, events: seq<Event>): Files
    decreases events
  {
    if events == [] then f else Ended(hash, After(hash, f, events[0]), events[1..])
  }

  /** The comparison has to be strict: an edit in the same instant as a fetch leaves
      equal times and a binary that no longer matches. */
  lemma StrictComparisonIsNeeded(hash: Content -> Digest, x: Content, stale: Digest, t: real)
    requires hash(x) != stale
    ensures var f := Files(None, Some(Sha1File(hash(x), t)), None);
            var events := [Event(t, Call(Arrives(x))), Event(t, EditSha1(stale))];
            && Past(f, t) && Trusted(hash, f) && Chronological(t, events) && NeverPoisons(hash, f, events)
            && var g := Ended(hash, f, events);
               g.binary.Some? && g.sha1.Some? && g.fetchTs == Some(g.sha1.value.mtime) && !Synced(hash, g)
  {
    var f := Files(None, Some(Sha1File(hash(x), t)), None);
    var e0, e1 := Event(t, Call(Arrives(x))), Event(t, EditSha1(stale));
    var f1 := After(hash, f, e0);
    assert [e0, e1][1..] == [e1] && [e1][1..] == [];
    assert NeverPoisons(hash, f1, [e1]) && Chronological(t, [e1]);
    assert Ended(hash, f1, [e1]) == After(hash, f1, e1);
  }
}

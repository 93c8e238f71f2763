/** The state of the `Home` component: the settings and count it shows, the
    loading and dialog flags, and the single local-storage slot it restores
    from and saves to. */
module HomeState {
  import opened Wrappers
  import opened Documents
  import opened Pagination

  /** The persisted record `{goal, readwiseApiToken, readwiseReadTag, numReadArticles}`. */
  datatype Settings = Settings(
    goal: int,
    readwiseApiToken: string,
    readwiseReadTag: string,
    numReadArticles: int)

  /** The bucket every refresh restricts the listing to. */
  const ArchiveLocation: string := "archive"

  class Home {
    var goal: int
    var current: int
    var token: string
    var tag: string
    var loading: bool
    var settingsOpen: bool
    var settingsFound: bool
    /** The local-storage slot holding the saved settings, if any. */
    var stored: Option<Settings>

    /** The record the component's present state would save. */
    function Snapshot(): Settings
      reads this
    {
      Settings(goal, token, tag, current)
    }

    /** Once settings were found or saved, the slot holds exactly what is shown. */
    ghost predicate Valid()
      reads this
    {
      settingsFound ==> stored == Some(Snapshot())
    }

    /** The initial `useState` values, with whatever the slot already holds. */
    constructor (slot: Option<Settings>)
      ensures Valid()
      ensures goal == 365 && current == 0 && token == "" && tag == "2024_READ"
      ensures !loading && !settingsOpen && !settingsFound
      ensures stored == slot
    {
      goal, current, token, tag := 365, 0, "", "2024_READ";
      loading, settingsOpen, settingsFound := false, false, false;
      stored := slot;
    }

    /** The mount effect: a saved record is copied into goal, token, tag and
        count and marks the settings as found; without one nothing changes.
        Re-running it while the slot matches the display (the effect depends
        on the found flag) changes nothing either. */
    method RestoreFromStorage()
      modifies this
      ensures old(stored).Some? ==> Snapshot() == old(stored).value && settingsFound && Valid()
      ensures old(stored).None? ==> Snapshot() == old(Snapshot()) && settingsFound == old(settingsFound)
      ensures old(Valid()) ==> Valid()
      ensures old(Valid()) && old(settingsFound) ==> Snapshot() == old(Snapshot())
      ensures stored == old(stored) && loading == old(loading) && settingsOpen == old(settingsOpen)
    {
      if stored.Some? {
        var s := stored.value;
        goal := s.goal;
        token := s.readwiseApiToken;
        tag := s.readwiseReadTag;
        current := s.numReadArticles;
        settingsFound := true;
      }
    }

    /** The goal input's change handler (its `parseInt` is not modelled). */
    method EditGoal(newGoal: int)
      modifies this`goal
      ensures goal == newGoal
    {
      goal := newGoal;
    }

    /** The token input's change handler. */
    method EditToken(newToken: string)
      modifies this`token
      ensures token == newToken
    {
      token := newToken;
    }

    /** The tag input's change handler. */
    method EditTag(newTag: string)
      modifies this`tag
      ensures tag == newTag
    {
      tag := newTag;
    }

    /** The edit button and the get-started button open the dialog. */
    method OpenSettings()
      modifies this`settingsOpen
      ensures settingsOpen
    {
      settingsOpen := true;
    }

    /** The dialog's `onOpenChange` closes it. */
    method CloseSettings()
      modifies this`settingsOpen
      ensures !settingsOpen
    {
      settingsOpen := false;
    }

    /** Starting a refresh only raises the loading flag; the count and the
        slot stay as they were until the fetch completes. */
    method StartRefresh()
      modifies this`loading
      ensures loading
      ensures old(Valid()) ==> Valid()
    {
      loading := true;
    }

    /** The fetch's continuation: count the read documents, clear the flags
        and save the present goal, token and tag with the new count. */
    method CompleteRefresh(docs: seq<Document>)
      modifies this
      ensures Valid()
      ensures goal == old(goal) && token == old(token) && tag == old(tag)
      ensures current == ReadCount(docs, tag)
      ensures !loading && !settingsOpen && settingsFound
      ensures stored == Some(Settings(goal, token, tag, ReadCount(docs, tag)))
    {
      var readwiseReads := ReadDocuments(docs, tag);
      current := |readwiseReads|;
      loading := false;
      settingsOpen := false;
      stored := Some(Settings(goal, token, tag, |readwiseReads|));
      settingsFound := true;
    }

    /** `fetchReadwiseData`: raise the flag, page through the archive updated
        since `yearStart`, then complete with the documents. A failed request
        throws past the continuation: the flag stays raised and neither the
        count nor the slot changes. */
    method Refresh(serve: Server, yearStart: string, ghost n: nat)
      returns (outcome: Result<seq<Document>>, ghost requests: seq<Request>)
      requires EndsWithin(serve, token, Some(yearStart), Some(ArchiveLocation), None, n)
      modifies this
      ensures outcome.Ok? || old(Valid()) ==> Valid()
      ensures IsRun(serve, old(token), Some(yearStart), Some(ArchiveLocation), requests)
      ensures outcome == RunOutcome(serve, requests)
      ensures goal == old(goal) && token == old(token) && tag == old(tag)
      ensures outcome.Err? ==>
        loading && current == old(current) && stored == old(stored) &&
        settingsOpen == old(settingsOpen) && settingsFound == old(settingsFound)
      ensures outcome.Ok? ==>
        !loading && !settingsOpen && settingsFound &&
        current == ReadCount(outcome.value, tag) &&
        stored == Some(Settings(goal, token, tag, current))
    {
      StartRefresh();
      outcome, requests := FetchDocumentList(serve, token, Some(yearStart), Some(ArchiveLocation), n);
      if outcome.Ok? {
        CompleteRefresh(outcome.value);
      }
    }
  }

  /** A server that hands out one empty page and then fails: the refresh
      leaves the flag raised and the saved record as it was. */
  method FailingSecondPage(saved: Settings)
  {
    var home := new Home(Some(saved));
    home.RestoreFromStorage();
    var serve: Server := (r: Request) => if r.pageCursor == None then Page([], Some("next")) else Failed;
    assert EndsWithin(serve, saved.readwiseApiToken, Some("2024-01-01T00:00:00.000Z"),
                      Some(ArchiveLocation), Some("next"), 1);
    var outcome, requests := home.Refresh(serve, "2024-01-01T00:00:00.000Z", 2);
    assert requests[0].pageCursor == None;
    assert requests[1].pageCursor == Some("next");
    assert |requests| == 2;
    assert outcome == Err;
    assert home.loading && home.stored == Some(saved) && home.current == saved.numReadArticles;
  }

  /** Saving after editing the tag stores the edited tag with the new count,
      although the display was out of step with the slot before the save. */
  method SaveAfterEdit(saved: Settings)
  {
    var home := new Home(Some(saved));
    home.RestoreFromStorage();
    home.EditTag("other");
    var serve: Server := (r: Request) => Page([], None);
    var outcome, requests := home.Refresh(serve, "2024-01-01T00:00:00.000Z", 1);
    StopsOnFalsyCursor(serve, saved.readwiseApiToken, Some("2024-01-01T00:00:00.000Z"),
                       Some(ArchiveLocation), requests, [], None);
    assert outcome == Ok([]);
    assert home.stored == Some(Settings(saved.goal, saved.readwiseApiToken, "other", 0));
  }

  /** Saving from the open dialog closes it. */
  method SaveClosesDialog()
  {
    var home := new Home(None);
    home.OpenSettings();
    assert home.settingsOpen;
    var serve: Server := (r: Request) => Page([], None);
    var outcome, requests := home.Refresh(serve, "2024-01-01T00:00:00.000Z", 1);
    StopsOnFalsyCursor(serve, "", Some("2024-01-01T00:00:00.000Z"), Some(ArchiveLocation),
                       requests, [], None);
    assert outcome == Ok([]);
    assert !home.settingsOpen && home.settingsFound;
  }

  /** Pages without results save a count of zero. */
  method EmptyPagesSaveZero()
  {
    var home := new Home(None);
    var serve: Server := (r: Request) => Page([], None);
    var outcome, requests := home.Refresh(serve, "2024-01-01T00:00:00.000Z", 1);
    StopsOnFalsyCursor(serve, "", Some("2024-01-01T00:00:00.000Z"), Some(ArchiveLocation),
                       requests, [], None);
    assert outcome == Ok([]);
    assert home.stored == Some(Settings(365, "", "2024_READ", 0));
  }
}

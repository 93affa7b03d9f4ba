/**
  The page pipeline of `ParticipantDirectory.init`: load the configuration, load
  the participants, then render the sorted grid and the count label, or show
  the error panel when any step throws.
*/
module Directory {
  import opened Wrappers
  import opened GitHub
  import opened Loading
  import Ordering
  import Formatting

  /** What `renderParticipants` puts in the grid. */
  datatype View = NoParticipantsNotice | Grid(cards: seq<Profile>)

  /** What the page shows once loading is over. */
  datatype Page = Content(view: View, count: string) | ErrorPanel(message: string)

  const GenericErrorMessage: string :=
    "Failed to load workshop data. Please check your connection and try again."

  /**
    `renderParticipants`: a notice for an empty list, otherwise one card per
    profile in display order; the list it was given is not reordered.
  */
  function RenderParticipants(ps: seq<Profile>): (v: View)
    ensures v.NoParticipantsNotice? <==> |ps| == 0
    ensures v.Grid? ==>
              Ordering.Sorted(v.cards) && multiset(v.cards) == multiset(ps) &&
              Ordering.StableFor(v.cards, ps)
  {
    if |ps| == 0 then NoParticipantsNotice
    else
      Ordering.SortCorrect(ps);
      Grid(Ordering.SortByDisplayName(ps))
  }

  /**
    `init` after the theme is set up: `config` is `None` when `config.json` could
    not be fetched or parsed; `rs` are the settled fetches of its usernames.
  */
  function Init(config: Option<Config>, rs: seq<Settled<Profile>>): (page: Page)
    requires config.Some? && HasParticipants(config.value) ==>
               |rs| == |config.value.participants.value|
    ensures page.Content? <==>
              config.Some? && HasParticipants(config.value) &&
              exists i :: 0 <= i < |rs| && rs[i].Fulfilled?
    ensures page.ErrorPanel? ==> page.message == GenericErrorMessage
    ensures page.Content? ==>
              page.view.Grid? && |page.view.cards| > 0 &&
              Ordering.Sorted(page.view.cards) &&
              multiset(page.view.cards) == multiset(Successes(rs)) &&
              Ordering.StableFor(page.view.cards, Successes(rs)) &&
              page.count == Formatting.CountLabel(|page.view.cards|)
  {
    match config
    case None => ErrorPanel(GenericErrorMessage)
    case Some(c) =>
      match LoadParticipants(c, rs)
      case Failure(_) => ErrorPanel(GenericErrorMessage)
      case Success(loaded) =>
        NoSuccessIffAllRejected(rs);
        SuccessesInOrder(rs);
        assert loaded.participants == Successes(rs);
        Content(RenderParticipants(loaded.participants), Formatting.CountLabel(|loaded.participants|))
  }

  /**
    When every fetch is rejected the page shows the same generic error panel as
    a broken configuration; the grid's empty-list notice is never reached from
    the load.
  */
  lemma AllRejectedShowsGenericError(c: Config, rs: seq<Settled<Profile>>)
    requires HasParticipants(c) && |rs| == |c.participants.value|
    requires forall i :: 0 <= i < |rs| ==> rs[i].Rejected?
    ensures Init(Some(c), rs) == Init(None, rs) == ErrorPanel(GenericErrorMessage)
  {
  }

  /**
    With three usernames where the middle one is not found, the grid holds the
    other two profiles and the label reads "2 participants".
  */
  lemma PartialFailureExample(pa: Profile, pc: Profile)
    ensures var c := Config(None, None, Some(["a", "b", "c"]));
            var rs := [Fulfilled(pa), Rejected(NotFound("b")), Fulfilled(pc)];
            var page := Init(Some(c), rs);
            page.Content? && multiset(page.view.cards) == multiset{pa, pc} &&
            page.count == "2 participants"
  {
    var c := Config(None, None, Some(["a", "b", "c"]));
    var rs: seq<Settled<Profile>> := [Fulfilled(pa), Rejected(NotFound("b")), Fulfilled(pc)];
    ThreeOutcomes(pa, pc);
    var loaded := LoadParticipants(c, rs);
    assert loaded == Success(Loaded([pa, pc], FailureLog(["a", "b", "c"], rs)));
    var v := RenderParticipants([pa, pc]);
    assert Init(Some(c), rs) == Content(v, Formatting.CountLabel(2));
    assert multiset(v.cards) == multiset{pa, pc};
    CountLabelOfTwo();
  }

  lemma CountLabelOfTwo()
    ensures Formatting.CountLabel(2) == "2 participants"
  {
  }

  lemma ThreeOutcomes(pa: Profile, pc: Profile)
    ensures Successes([Fulfilled(pa), Rejected(NotFound("b")), Fulfilled(pc)]) == [pa, pc]
  {
    var a: seq<Settled<Profile>> := [Fulfilled(pa)];
    var b: seq<Settled<Profile>> := [Rejected(NotFound("b"))];
    var c: seq<Settled<Profile>> := [Fulfilled(pc)];
    assert a[..0] == b[..0] == c[..0] == [];
    SuccessesAppend(a, b);
    SuccessesAppend(a + b, c);
    assert a + b + c == [Fulfilled(pa), Rejected(NotFound("b")), Fulfilled(pc)];
  }
}

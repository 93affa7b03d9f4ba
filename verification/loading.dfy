/**
  `loadParticipants`: the guard on the configured username list, and the fan-in
  step that splits the settled outcomes of `Promise.allSettled` into the loaded
  profiles and a diagnostic failure log.

  The outcomes are an input: one per configured username, in the order of the
  list, as `participants.map(fetchGitHubUser)` produces them.
*/
module Loading {
  import opened Wrappers
  import opened GitHub

  /** The parsed `config.json`; `participants` is `None` when the key is absent. */
  datatype Config = Config(
    title: Option<string>,
    description: Option<string>,
    participants: Option<seq<string>>
  )

  /** One entry of the logged failure list: a username and an error message. */
  datatype FailureEntry = FailureEntry(username: string, error: string)

  /** The two ways the load step throws. */
  datatype LoadError =
    | NoParticipantsConfigured
    | NoneLoaded(failures: seq<FailureEntry>)

  /** A successful load: the profiles kept for rendering and the failures logged on the way. */
  datatype Loaded = Loaded(participants: seq<Profile>, failures: seq<FailureEntry>)

  /** True when the configuration holds at least one username (the guard at the top of the load). */
  predicate HasParticipants(config: Config) {
    config.participants.Some? && |config.participants.value| > 0
  }

  /**
    The positions of the outcomes that are fulfilled (`fulfilled == true`) or
    rejected (`fulfilled == false`), in increasing order.
  */
  function Positions<T>(rs: seq<Settled<T>>, fulfilled: bool): (r: seq<nat>)
    ensures forall j :: 0 <= j < |r| ==> r[j] < |rs| && rs[r[j]].Fulfilled? == fulfilled
    ensures forall j, j' :: 0 <= j < j' < |r| ==> r[j] < r[j']
    ensures forall i :: 0 <= i < |rs| && rs[i].Fulfilled? == fulfilled ==> i in r
  {
    if |rs| == 0 then []
    else
      var r0 := Positions(rs[..|rs| - 1], fulfilled);
      if rs[|rs| - 1].Fulfilled? == fulfilled then r0 + [|rs| - 1] else r0
  }

  /** The values of the fulfilled outcomes, in outcome order. */
  function Successes<T>(rs: seq<Settled<T>>): seq<T> {
    if |rs| == 0 then []
    else
      Successes(rs[..|rs| - 1]) +
        match rs[|rs| - 1]
        case Fulfilled(v) => [v]
        case Rejected(_) => []
  }

  /** The reasons of the rejected outcomes, in outcome order. */
  function Rejections<T>(rs: seq<Settled<T>>): seq<FetchError> {
    if |rs| == 0 then []
    else
      Rejections(rs[..|rs| - 1]) +
        match rs[|rs| - 1]
        case Fulfilled(_) => []
        case Rejected(e) => [e]
  }

  /** The j-th success is the value of the j-th fulfilled outcome: input order is kept. */
  lemma {:induction false} SuccessesInOrder<T>(rs: seq<Settled<T>>)
    ensures |Successes(rs)| == |Positions(rs, true)|
    ensures forall j :: 0 <= j < |Successes(rs)| ==>
              Successes(rs)[j] == rs[Positions(rs, true)[j]].value
  {
    if |rs| > 0 {
      SuccessesInOrder(rs[..|rs| - 1]);
    }
  }

  /** The k-th rejection reason is the reason of the k-th rejected outcome. */
  lemma {:induction false} RejectionsInOrder<T>(rs: seq<Settled<T>>)
    ensures |Rejections(rs)| == |Positions(rs, false)|
    ensures forall k :: 0 <= k < |Rejections(rs)| ==>
              Rejections(rs)[k] == rs[Positions(rs, false)[k]].reason
  {
    if |rs| > 0 {
      RejectionsInOrder(rs[..|rs| - 1]);
    }
  }

  /** Every outcome lands in exactly one of the two lists. */
  lemma {:induction false} PartitionCounts<T>(rs: seq<Settled<T>>)
    ensures |Successes(rs)| + |Rejections(rs)| == |rs|
  {
    if |rs| > 0 {
      PartitionCounts(rs[..|rs| - 1]);
    }
  }

  /** There is no success exactly when every outcome was rejected. */
  lemma {:induction false} NoSuccessIffAllRejected<T>(rs: seq<Settled<T>>)
    ensures |Successes(rs)| == 0 <==> forall i :: 0 <= i < |rs| ==> rs[i].Rejected?
  {
    if |rs| > 0 {
      NoSuccessIffAllRejected(rs[..|rs| - 1]);
      assert forall i :: 0 <= i < |rs| - 1 ==> rs[..|rs| - 1][i] == rs[i];
    }
  }

  /** Filtering distributes over concatenation, so relative order is never disturbed. */
  lemma {:induction false} SuccessesAppend<T>(a: seq<Settled<T>>, b: seq<Settled<T>>)
    ensures Successes(a + b) == Successes(a) + Successes(b)
    decreases |b|
  {
    if |b| > 0 {
      var b0 := b[..|b| - 1];
      assert (a + b)[..|a + b| - 1] == a + b0;
      assert (a + b)[|a + b| - 1] == b[|b| - 1];
      SuccessesAppend(a, b0);
      calc {
        Successes(a + b);
        Successes(a + b0) + Successes([b[|b| - 1]]);
        Successes(a) + Successes(b0) + Successes([b[|b| - 1]]);
        Successes(a) + (Successes(b0) + Successes([b[|b| - 1]]));
        Successes(a) + Successes(b);
      }
    } else {
      assert a + b == a;
    }
  }

  /**
    The failure log as the source builds it: the k-th rejection is labelled with
    the k-th configured username, where k counts rejections only.
  */
  function FailureLog(ids: seq<string>, rs: seq<Settled<Profile>>): (log: seq<FailureEntry>)
    requires |rs| == |ids|
    ensures |log| == |Rejections(rs)| <= |ids|
  {
    PartitionCounts(rs);
    var rej := Rejections(rs);
    seq(|rej|, k requires 0 <= k < |rej| => FailureEntry(ids[k], Message(rej[k])))
  }

  /** Each logged entry carries the username at its rank among the rejections, and the matching reason. */
  lemma FailureLogLabelsByRank(ids: seq<string>, rs: seq<Settled<Profile>>)
    requires |rs| == |ids|
    ensures |FailureLog(ids, rs)| == |Positions(rs, false)|
    ensures forall k :: 0 <= k < |FailureLog(ids, rs)| ==>
              FailureLog(ids, rs)[k] == FailureEntry(ids[k], Message(rs[Positions(rs, false)[k]].reason))
  {
    RejectionsInOrder(rs);
  }

  /** The failure log labelled with the username whose fetch was actually rejected. */
  function AttributedFailures(ids: seq<string>, rs: seq<Settled<Profile>>): (log: seq<FailureEntry>)
    requires |rs| == |ids|
    ensures |log| == |Rejections(rs)| == |Positions(rs, false)|
    ensures forall k :: 0 <= k < |log| ==>
              var i := Positions(rs, false)[k];
              rs[i].Rejected? && log[k] == FailureEntry(ids[i], Message(rs[i].reason))
  {
    RejectionsInOrder(rs);
    var pos := Positions(rs, false);
    seq(|pos|, k requires 0 <= k < |pos| => FailureEntry(ids[pos[k]], Message(rs[pos[k]].reason)))
  }

  /** The source's log and the attributed log agree when every fetch was rejected. */
  lemma {:induction false} LogAttributedWhenAllRejected(ids: seq<string>, rs: seq<Settled<Profile>>)
    requires |rs| == |ids|
    requires forall i :: 0 <= i < |rs| ==> rs[i].Rejected?
    ensures FailureLog(ids, rs) == AttributedFailures(ids, rs)
  {
    AllRejectedPositions(rs);
    FailureLogLabelsByRank(ids, rs);
  }

  lemma {:induction false} AllRejectedPositions<T>(rs: seq<Settled<T>>)
    requires forall i :: 0 <= i < |rs| ==> rs[i].Rejected?
    ensures Positions(rs, false) == seq(|rs|, i requires 0 <= i < |rs| => i)
  {
    if |rs| > 0 {
      AllRejectedPositions(rs[..|rs| - 1]);
    }
  }

  /**
    With `["a", "b"]` configured, `a` loaded and `b` not found, the source logs
    the failure under `a`; the attributed log names `b`.
  */
  lemma MislabelledFailure(p: Profile)
    ensures var ids := ["a", "b"];
            var rs := [Fulfilled(p), Rejected(NotFound("b"))];
            FailureLog(ids, rs) == [FailureEntry("a", Message(NotFound("b")))] &&
            AttributedFailures(ids, rs) == [FailureEntry("b", Message(NotFound("b")))]
  {
    var ids := ["a", "b"];
    var rs: seq<Settled<Profile>> := [Fulfilled(p), Rejected(NotFound("b"))];
    assert rs[..1] == [Fulfilled(p)];
    assert rs[..1][..0] == [];
    assert Rejections(rs[..1]) == [];
    assert Rejections(rs) == [NotFound("b")];
    assert Positions(rs[..1], false) == [];
    assert Positions(rs, false) == [1];
  }

  /**
    `loadParticipants`: rejects a missing or empty username list before anything
    is fetched; otherwise keeps the fulfilled profiles in input order, logs the
    rejections, and throws when nothing was fulfilled.
  */
  function LoadParticipants(config: Config, rs: seq<Settled<Profile>>): (r: Result<Loaded, LoadError>)
    requires HasParticipants(config) ==> |rs| == |config.participants.value|
    ensures !HasParticipants(config) <==> r == Failure(NoParticipantsConfigured)
    ensures r.Failure? && r.error.NoneLoaded? <==>
              HasParticipants(config) && forall i :: 0 <= i < |rs| ==> rs[i].Rejected?
    ensures r.Success? ==> |r.value.participants| > 0
    ensures r.Success? ==> r.value.failures == FailureLog(config.participants.value, rs)
    ensures r.Failure? && r.error.NoneLoaded? ==>
              r.error.failures == FailureLog(config.participants.value, rs)
    ensures r.Success? ==>
              |r.value.participants| + |r.value.failures| == |config.participants.value|
    ensures r.Success? ==>
              |r.value.participants| == |Positions(rs, true)| &&
              forall j :: 0 <= j < |r.value.participants| ==>
                r.value.participants[j] == rs[Positions(rs, true)[j]].value
  {
    if !HasParticipants(config) then Failure(NoParticipantsConfigured)
    else
      var ids := config.participants.value;
      var ps := Successes(rs);
      var log := FailureLog(ids, rs);
      NoSuccessIffAllRejected(rs);
      PartitionCounts(rs);
      SuccessesInOrder(rs);
      if |ps| == 0 then Failure(NoneLoaded(log)) else Success(Loaded(ps, log))
  }

  /** The guard runs first: without usernames the outcome does not depend on any fetch. */
  lemma GuardPrecedesFetch(config: Config, rs: seq<Settled<Profile>>, rs': seq<Settled<Profile>>)
    requires !HasParticipants(config)
    ensures LoadParticipants(config, rs) == LoadParticipants(config, rs')
  {
  }
}

/**
 * The profile-setup reactor of the login flow (`ProfileSetupViewReactor` under `LoginScene`).
 *
 * An action becomes a short, ordered sequence of mutations: a loading flag switched on, the
 * use case's answer (or the error it failed with), and the loading flag switched off. While the
 * nickname-check button is loading every action is dropped. The reducer writes one field per
 * mutation; errors are turned into the user-facing text of `Errors.ErrorMessage`.
 *
 * The use case's answers are parameters (`Replies`). ReactorKit ends a mutation sequence at an
 * uncaught error and keeps the mutations emitted before it, which is what
 * `RandomNicknameAsWritten` models.
 */
module LoginProfileSetup {
  import opened Options
  import opened Errors

  /** The profile being submitted; only whether it has a name matters to the reactor. */
  datatype Profile = Profile(name: Option<string>, hasImage: bool)

  datatype Action =
    | GetRandomNickname
    | CheckNickname(name: string, tag: int)
    | SetProfile(profile: Profile, tag: int)

  datatype Mutation =
    | SetLoading(isLoad: bool)
    | RandomNickname(name: Option<string>)
    | NameCheck(isOverlap: Option<bool>)
    | MadeProfile
    | CatchError(err: AppError)
    | SetButtonLoading(isLoad: bool, tag: int)

  datatype ButtonLoading = ButtonLoading(status: bool, tag: int)

  /**
   * The reactor state. `completions` counts the calls of the completion callback made by
   * `madeProfile`; the pulsed `madeProfile` field is never written and is not modelled.
   */
  datatype State = State(
    randomName: Option<string>,
    nameOverlap: Option<bool>,
    errorMessage: Option<string>,
    isLoading: Option<bool>,
    buttonLoading: Option<ButtonLoading>,
    completions: nat)

  const InitialState: State := State(None, None, None, None, None, 0)

  /** What the use case answers to each of its three calls; only the call the action makes is consulted. */
  datatype Replies = Replies(
    nickname: Outcome<Option<string>, AppError>,
    overlap: Outcome<bool, AppError>,
    made: Outcome<(), AppError>)

  /** The state fields, to say which one a mutation writes. */
  datatype Field = RandomNameField | NameOverlapField | ErrorMessageField | IsLoadingField | ButtonLoadingField | CompletionsField

  /** The one field each mutation is meant to write. */
  function Target(m: Mutation): Field {
    match m
    case SetLoading(_) => IsLoadingField
    case RandomNickname(_) => RandomNameField
    case NameCheck(_) => NameOverlapField
    case MadeProfile => CompletionsField
    case CatchError(_) => ErrorMessageField
    case SetButtonLoading(_, _) => ButtonLoadingField
  }

  /** `s` and `r` agree on every field except possibly `f`. */
  predicate SameExcept(s: State, r: State, f: Field) {
    && (f != RandomNameField ==> r.randomName == s.randomName)
    && (f != NameOverlapField ==> r.nameOverlap == s.nameOverlap)
    && (f != ErrorMessageField ==> r.errorMessage == s.errorMessage)
    && (f != IsLoadingField ==> r.isLoading == s.isLoading)
    && (f != ButtonLoadingField ==> r.buttonLoading == s.buttonLoading)
    && (f != CompletionsField ==> r.completions == s.completions)
  }

  /** A nickname check or a profile submission is in flight. */
  predicate ButtonBusy(s: State) {
    s.buttonLoading.Some? && s.buttonLoading.value.status
  }

  /**
   * `mutate(action:)`, as written: nothing while the button is loading, otherwise the
   * action's sequence; a failed nickname fetch ends right after loading was switched on.
   */
  function Mutate(s: State, a: Action, replies: Replies): (ms: seq<Mutation>)
    ensures ButtonBusy(s) ==> ms == []
    ensures !ButtonBusy(s) ==> (ms == [] <==> a.SetProfile? && a.profile.name.None?)
    ensures !ButtonBusy(s) && a.GetRandomNickname? ==>
      ms[0] == SetLoading(true) && (|ms| == 3 <==> replies.nickname.Succeeded?) && (|ms| == 1 <==> replies.nickname.Failed?)
  {
    if ButtonBusy(s) then []
    else
      match a
      case GetRandomNickname => RandomNicknameAsWritten(replies.nickname)
      case CheckNickname(name, tag) => OverlapCheck(tag, replies.overlap)
      case SetProfile(profile, tag) => MakeProfile(profile, tag, replies.made)
  }

  /** `mutate(action:)` with the nickname failure caught as the other two requests catch theirs. */
  function MutateCorrected(s: State, a: Action, replies: Replies): (ms: seq<Mutation>)
    ensures !a.GetRandomNickname? || ButtonBusy(s) ==> ms == Mutate(s, a, replies)
    ensures a.GetRandomNickname? && !ButtonBusy(s) ==>
      |ms| == 3 && ms[0] == SetLoading(true) && ms[2] == SetLoading(false)
  {
    if a.GetRandomNickname? && !ButtonBusy(s) then RandomNicknameMutations(replies.nickname)
    else Mutate(s, a, replies)
  }

  /** `getRandomNickname` as written: a failure ends the sequence right after loading was switched on. */
  function RandomNicknameAsWritten(reply: Outcome<Option<string>, AppError>): seq<Mutation> {
    match reply
    case Succeeded(name) => [SetLoading(true), RandomNickname(name), SetLoading(false)]
    case Failed(_) => [SetLoading(true)]
  }

  /** `getRandomNickname` with the failure caught as the other two requests catch theirs. */
  function RandomNicknameMutations(reply: Outcome<Option<string>, AppError>): seq<Mutation> {
    match reply
    case Succeeded(name) => [SetLoading(true), RandomNickname(name), SetLoading(false)]
    case Failed(err) => [SetLoading(true), CatchError(err), SetLoading(false)]
  }

  /** `overlapCheck`: button loading on, the overlap answer or the caught error, button loading off. */
  function OverlapCheck(tag: int, reply: Outcome<bool, AppError>): seq<Mutation> {
    var result := match reply
      case Succeeded(isOverlap) => NameCheck(Some(isOverlap))
      case Failed(err) => CatchError(err);
    [SetButtonLoading(true, tag), result, SetButtonLoading(false, tag)]
  }

  /** `makeProfile`: nothing for a nameless profile, otherwise button loading around the submission. */
  function MakeProfile(profile: Profile, tag: int, reply: Outcome<(), AppError>): seq<Mutation> {
    if profile.name.None? then []
    else
      var result := match reply
        case Succeeded(_) => MadeProfile
        case Failed(err) => CatchError(err);
      [SetButtonLoading(true, tag), result, SetButtonLoading(false, tag)]
  }

  /** `handleError`: the error's user-facing text becomes the error message. */
  function HandleError(s: State, err: AppError): State {
    s.(errorMessage := Some(ErrorMessage(err, LoginScreen)))
  }

  /** `reduce(state:mutation:)`: each mutation writes its own field and nothing else. */
  function Reduce(s: State, m: Mutation): (r: State)
    ensures SameExcept(s, r, Target(m))
    ensures m.SetLoading? ==> r.isLoading == Some(m.isLoad)
    ensures m.SetButtonLoading? ==> r.buttonLoading == Some(ButtonLoading(m.isLoad, m.tag))
    ensures m.RandomNickname? ==> r.randomName == m.name
    ensures m.NameCheck? ==> r.nameOverlap == m.isOverlap
    ensures m.CatchError? ==> r.errorMessage == Some(ErrorMessage(m.err, LoginScreen))
    ensures m.MadeProfile? ==> r.completions == s.completions + 1
  {
    match m
    case SetLoading(isLoad) => s.(isLoading := Some(isLoad))
    case SetButtonLoading(isLoad, tag) => s.(buttonLoading := Some(ButtonLoading(isLoad, tag)))
    case RandomNickname(name) => s.(randomName := name)
    case NameCheck(isOverlap) => s.(nameOverlap := isOverlap)
    case CatchError(err) => HandleError(s, err)
    case MadeProfile => s.(completions := s.completions + 1)
  }

  /** The state after the mutations, in order. */
  function ReduceAll(s: State, ms: seq<Mutation>): State
    decreases |ms|
  {
    if |ms| == 0 then s else ReduceAll(Reduce(s, ms[0]), ms[1..])
  }

  /** Reducing a concatenation reduces the first part, then the second. */
  lemma {:induction false} ReduceAllAppend(s: State, xs: seq<Mutation>, ys: seq<Mutation>)
    ensures ReduceAll(s, xs + ys) == ReduceAll(ReduceAll(s, xs), ys)
    decreases |xs|
  {
    if |xs| > 0 {
      assert (xs + ys)[0] == xs[0] && (xs + ys)[1..] == xs[1..] + ys;
      ReduceAllAppend(Reduce(s, xs[0]), xs[1..], ys);
    } else {
      assert xs + ys == ys;
    }
  }

  /** The states after one, two and three mutations of a three-mutation sequence. */
  lemma ReduceThree(s: State, a: Mutation, b: Mutation, c: Mutation)
    ensures ReduceAll(s, [a, b, c][..1]) == Reduce(s, a)
    ensures ReduceAll(s, [a, b, c][..2]) == Reduce(Reduce(s, a), b)
    ensures ReduceAll(s, [a, b, c]) == Reduce(Reduce(Reduce(s, a), b), c)
  {
    assert [a, b, c][..1] == [a] && [a, b, c][..2] == [a] + [b];
    assert [a, b, c] == [a] + [b] + [c];
    ReduceAllAppend(s, [a], [b]);
    ReduceAllAppend(s, [a] + [b], [c]);
  }

  /**
   * A nickname check holds the button busy until its answer is in, then releases it with the
   * same tag; the answer, or the failure's text, is recorded and nothing else changes.
   */
  lemma OverlapCheckRound(s: State, name: string, tag: int, replies: Replies)
    requires !ButtonBusy(s)
    ensures var ms := Mutate(s, CheckNickname(name, tag), replies);
      var r := ReduceAll(s, ms);
      && (forall k :: 1 <= k < |ms| ==> ButtonBusy(ReduceAll(s, ms[..k])))
      && r.buttonLoading == Some(ButtonLoading(false, tag))
      && r.randomName == s.randomName && r.isLoading == s.isLoading && r.completions == s.completions
      && (replies.overlap.Succeeded? ==>
            r.nameOverlap == Some(replies.overlap.value) && r.errorMessage == s.errorMessage)
      && (replies.overlap.Failed? ==>
            r.nameOverlap == s.nameOverlap && r.errorMessage == Some(ErrorMessage(replies.overlap.error, LoginScreen)))
  {
    var ms := Mutate(s, CheckNickname(name, tag), replies);
    ReduceThree(s, ms[0], ms[1], ms[2]);
    assert ms == [ms[0], ms[1], ms[2]];
  }

  /**
   * Submitting a nameless profile does nothing; otherwise the button is busy until the
   * answer is in and released afterwards, and exactly a success calls the completion callback.
   */
  lemma MakeProfileRound(s: State, profile: Profile, tag: int, replies: Replies)
    requires !ButtonBusy(s)
    ensures var ms := Mutate(s, SetProfile(profile, tag), replies);
      var r := ReduceAll(s, ms);
      && (profile.name.None? ==> ms == [] && r == s)
      && (profile.name.Some? ==>
            && (forall k :: 1 <= k < |ms| ==> ButtonBusy(ReduceAll(s, ms[..k])))
            && r.buttonLoading == Some(ButtonLoading(false, tag))
            && r.randomName == s.randomName && r.nameOverlap == s.nameOverlap && r.isLoading == s.isLoading
            && (replies.made.Succeeded? ==> r.completions == s.completions + 1 && r.errorMessage == s.errorMessage)
            && (replies.made.Failed? ==>
                  r.completions == s.completions && r.errorMessage == Some(ErrorMessage(replies.made.error, LoginScreen))))
  {
    var ms := Mutate(s, SetProfile(profile, tag), replies);
    if profile.name.Some? {
      ReduceThree(s, ms[0], ms[1], ms[2]);
      assert ms == [ms[0], ms[1], ms[2]];
    }
  }

  /**
   * As written, fetching a random nickname switches loading on for the duration of the
   * request; a success records the name and switches it off, while a failure changes
   * nothing else and leaves loading on.
   */
  lemma RandomNicknameRound(s: State, replies: Replies)
    requires !ButtonBusy(s)
    ensures var ms := Mutate(s, GetRandomNickname, replies);
      var r := ReduceAll(s, ms);
      && (forall k :: 1 <= k < |ms| ==> ReduceAll(s, ms[..k]).isLoading == Some(true))
      && r.buttonLoading == s.buttonLoading && r.nameOverlap == s.nameOverlap && r.completions == s.completions
      && r.errorMessage == s.errorMessage
      && (replies.nickname.Succeeded? ==> r.randomName == replies.nickname.value && r.isLoading == Some(false))
      && (replies.nickname.Failed? ==> r == s.(isLoading := Some(true)))
  {
    var ms := Mutate(s, GetRandomNickname, replies);
    if replies.nickname.Succeeded? {
      ReduceThree(s, ms[0], ms[1], ms[2]);
      assert ms == [ms[0], ms[1], ms[2]];
    } else {
      NicknameFailureLeavesLoadingOn(s, replies.nickname.error);
    }
  }

  /**
   * With the failure caught, fetching a random nickname switches loading on for the duration
   * of the request and off afterwards; the name, or the failure's text, is recorded.
   */
  lemma RandomNicknameRoundCorrected(s: State, replies: Replies)
    requires !ButtonBusy(s)
    ensures var ms := MutateCorrected(s, GetRandomNickname, replies);
      var r := ReduceAll(s, ms);
      && (forall k :: 1 <= k < |ms| ==> ReduceAll(s, ms[..k]).isLoading == Some(true))
      && r.isLoading == Some(false)
      && r.buttonLoading == s.buttonLoading && r.nameOverlap == s.nameOverlap && r.completions == s.completions
      && (replies.nickname.Succeeded? ==> r.randomName == replies.nickname.value && r.errorMessage == s.errorMessage)
      && (replies.nickname.Failed? ==>
            r.randomName == s.randomName && r.errorMessage == Some(ErrorMessage(replies.nickname.error, LoginScreen)))
  {
    var ms := MutateCorrected(s, GetRandomNickname, replies);
    ReduceThree(s, ms[0], ms[1], ms[2]);
    assert ms == [ms[0], ms[1], ms[2]];
  }

  /**
   * As written, a failed nickname fetch leaves the loading indicator on for good and shows
   * no error text: the state differs from the one before only in `isLoading`, now on.
   */
  lemma NicknameFailureLeavesLoadingOn(s: State, err: AppError)
    ensures ReduceAll(s, RandomNicknameAsWritten(Failed(err))) == s.(isLoading := Some(true))
    ensures ReduceAll(s, RandomNicknameMutations(Failed(err))).isLoading == Some(false)
  {
    ReduceThree(s, SetLoading(true), CatchError(err), SetLoading(false));
    assert ReduceAll(s, [SetLoading(true)]) == ReduceAll(Reduce(s, SetLoading(true)), []);
  }

  /** The caught version differs from the one as written only when the fetch fails. */
  lemma NicknameSuccessUnaffected(reply: Outcome<Option<string>, AppError>)
    ensures reply.Succeeded? <==> RandomNicknameAsWritten(reply) == RandomNicknameMutations(reply)
  {
    if reply.Failed? {
      assert |RandomNicknameAsWritten(reply)| != |RandomNicknameMutations(reply)|;
    }
  }
}

/**
 * The profile-form reactor (`ProfileFormViewReactor`, in `ViewControllers/ProfileSetup`).
 *
 * Every request is wrapped in `setLoading(true)` ... `setLoading(false)` with its failure
 * caught, and no action is taken while loading. A successful submission marks the setup as
 * completed and calls the completion callback. The pulsed `buttonLoading` field is never
 * written by this reactor and is not modelled.
 */
module ProfileFormReactor {
  import opened Options
  import opened Errors

  datatype Action =
    | GetRandomNickname
    | CheckNickname(name: string)
    | SetProfile(profileName: Option<string>, hasImage: bool)

  datatype Mutation =
    | SetLoading(isLoad: bool)
    | RandomNickname(name: Option<string>)
    | NameCheck(isOverlap: Option<bool>)
    | MadeProfile
    | CatchError(err: AppError)

  /** The reactor state; `completions` counts the calls of the completion callback. */
  datatype State = State(
    randomName: Option<string>,
    nameOverlap: Option<bool>,
    message: Option<string>,
    isLoading: bool,
    setupCompleted: bool,
    completions: nat)

  const InitialState: State := State(None, None, None, false, false, 0)

  /**
   * What the repository answers to each of its three calls. The nickname answer is already
   * decoded from UTF-8; `Some(None)` stands for bytes that are not valid UTF-8.
   */
  datatype Replies = Replies(
    nickname: Outcome<Option<string>, AppError>,
    overlap: Outcome<bool, AppError>,
    made: Outcome<(), AppError>)

  /** `mutate(action:)`: nothing while loading, otherwise the action's sequence. */
  function Mutate(s: State, a: Action, replies: Replies): (ms: seq<Mutation>)
    ensures s.isLoading ==> ms == []
    ensures !s.isLoading ==> (ms == [] <==> a.SetProfile? && a.profileName.None?)
    ensures ms != [] ==> |ms| == 3 && ms[0] == SetLoading(true) && ms[2] == SetLoading(false)
  {
    if s.isLoading then []
    else
      match a
      case GetRandomNickname => Wrapped(match replies.nickname
          case Succeeded(name) => RandomNickname(name)
          case Failed(err) => CatchError(err))
      case CheckNickname(_) => Wrapped(match replies.overlap
          case Succeeded(isOverlap) => NameCheck(Some(isOverlap))
          case Failed(err) => CatchError(err))
      case SetProfile(name, _) =>
        if name.None? then []
        else Wrapped(match replies.made
          case Succeeded(_) => MadeProfile
          case Failed(err) => CatchError(err))
  }

  /** `Observable.concat([loadingOn, result, loadingOff])`, shared by `getRandomNickname`, `overlapCheck` and `makeProfile`. */
  function Wrapped(result: Mutation): seq<Mutation> {
    [SetLoading(true), result, SetLoading(false)]
  }

  /** `reduce(state:mutation:)`. */
  function Reduce(s: State, m: Mutation): (r: State)
    ensures m.SetLoading? ==> r == s.(isLoading := m.isLoad)
    ensures m.RandomNickname? ==> r == s.(randomName := m.name)
    ensures m.NameCheck? ==> r == s.(nameOverlap := m.isOverlap)
    ensures m.CatchError? ==> r == s.(message := Some(ErrorMessage(m.err, FormScreen)))
    ensures m.MadeProfile? ==> r == s.(setupCompleted := true, completions := s.completions + 1)
  {
    match m
    case SetLoading(isLoad) => s.(isLoading := isLoad)
    case RandomNickname(name) => s.(randomName := name)
    case NameCheck(isOverlap) => s.(nameOverlap := isOverlap)
    case CatchError(err) => HandleError(s, err)
    case MadeProfile => s.(setupCompleted := true, completions := s.completions + 1)
  }

  /** `handleError`: the error's user-facing text becomes the message. */
  function HandleError(s: State, err: AppError): State {
    s.(message := Some(ErrorMessage(err, FormScreen)))
  }

  /** The state after the mutations, in order. */
  function ReduceAll(s: State, ms: seq<Mutation>): State
    decreases |ms|
  {
    if |ms| == 0 then s else ReduceAll(Reduce(s, ms[0]), ms[1..])
  }

  /** Reducing a concatenation reduces the first part, then the second. */
  lemma {:induction false} ReduceAllAppend(s: State, xs: seq<Mutation>, ys: seq<Mutation>)
    ensures ReduceAll(s, xs + ys) == ReduceAll(ReduceAll(s, xs), ys)
    decreases |xs|
  {
    if |xs| > 0 {
      assert (xs + ys)[0] == xs[0] && (xs + ys)[1..] == xs[1..] + ys;
      ReduceAllAppend(Reduce(s, xs[0]), xs[1..], ys);
    } else {
      assert xs + ys == ys;
    }
  }

  /** The states after one, two and three mutations of a wrapped request. */
  lemma ReduceWrapped(s: State, result: Mutation)
    ensures ReduceAll(s, Wrapped(result)[..1]) == s.(isLoading := true)
    ensures ReduceAll(s, Wrapped(result)[..2]) == Reduce(s.(isLoading := true), result)
    ensures ReduceAll(s, Wrapped(result)) == Reduce(Reduce(s.(isLoading := true), result), SetLoading(false))
  {
    var a, c := SetLoading(true), SetLoading(false);
    assert Wrapped(result)[..1] == [a] && Wrapped(result)[..2] == [a] + [result];
    assert Wrapped(result) == [a] + [result] + [c];
    ReduceAllAppend(s, [a], [result]);
    ReduceAllAppend(s, [a] + [result], [c]);
  }

  /**
   * Every request keeps the reactor loading while it is in flight (so any other action is
   * dropped) and not loading afterwards; its answer, or the failure's text, is recorded, and
   * the setup is marked completed exactly when a submission succeeds.
   */
  lemma RequestRound(s: State, a: Action, replies: Replies)
    requires !s.isLoading
    ensures var ms := Mutate(s, a, replies);
      var r := ReduceAll(s, ms);
      && (forall k :: 1 <= k < |ms| ==> ReduceAll(s, ms[..k]).isLoading)
      && !r.isLoading
      && (a.GetRandomNickname? ==> match replies.nickname
            case Succeeded(name) => r == s.(randomName := name)
            case Failed(err) => r == s.(message := Some(ErrorMessage(err, FormScreen))))
      && (a.CheckNickname? ==> match replies.overlap
            case Succeeded(isOverlap) => r == s.(nameOverlap := Some(isOverlap))
            case Failed(err) => r == s.(message := Some(ErrorMessage(err, FormScreen))))
      && (a.SetProfile? && a.profileName.None? ==> r == s)
      && (a.SetProfile? && a.profileName.Some? ==> match replies.made
            case Succeeded(_) => r == s.(setupCompleted := true, completions := s.completions + 1)
            case Failed(err) => r == s.(message := Some(ErrorMessage(err, FormScreen))))
  {
    var ms := Mutate(s, a, replies);
    if ms != [] {
      ReduceWrapped(s, ms[1]);
      assert ms == Wrapped(ms[1]);
    }
  }

  /**
   * While a request is in flight every action is dropped: after loading is switched on, and
   * still after the reply, unless the reply is itself a loading switch (no request yields one).
   */
  lemma BusyDropsActions(s: State, result: Mutation, a: Action, replies: Replies)
    ensures Mutate(ReduceAll(s, Wrapped(result)[..1]), a, replies) == []
    ensures !result.SetLoading? ==> Mutate(ReduceAll(s, Wrapped(result)[..2]), a, replies) == []
  {
    ReduceWrapped(s, result);
  }
}

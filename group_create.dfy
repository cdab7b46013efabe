/**
 * The group-creation reactor (`GroupCreateViewReactor`).
 *
 * A submitted title is first checked by the title validator, which is not part of this model
 * and is a parameter here (`Verdict`). A rejected title only shows the validator's text; an
 * accepted one is sent to the use case between `setLoading(true)` and `setLoading(false)`,
 * and any failure is shown as a fixed text. The reactor does not look at its state before
 * acting, so a second submission during a request starts a second request.
 */
module GroupCreate {
  import opened Options

  /** What `GroupTitleValidator.validator` answers: whether it is `.success`, and its `info` text. */
  datatype Verdict = Verdict(success: bool, info: string)

  datatype Action = SetGroup(title: Option<string>, hasImage: bool)

  datatype Mutation = MadeGroup | NotifyMessage(message: Option<string>) | SetLoading(isLoad: bool)

  /** The reactor state; `completions` counts the calls of the optional completion callback. */
  datatype State = State(message: Option<string>, isLoading: bool, completions: nat)

  const InitialState: State := State(None, false, 0)

  const FailureText: string := "오류 발생"

  /** `titleValidCheck`: the title is valid exactly when the validator answers `.success`; its text comes along. */
  function TitleValidCheck(verdict: Verdict): (r: (bool, string))
    ensures r.0 <==> verdict.success
    ensures r.1 == verdict.info
  {
    if verdict.success then (true, verdict.info) else (false, verdict.info)
  }

  /**
   * `createGroup(title:image:)`. The source force-unwraps the title once the validator has
   * accepted it, so an accepted title is required to be present.
   */
  function CreateGroupMutations(title: Option<string>, verdict: Verdict, reply: Outcome<(), ()>): seq<Mutation>
    requires verdict.success ==> title.Some?
  {
    var (valid, message) := TitleValidCheck(verdict);
    if !valid then [NotifyMessage(Some(message))]
    else
      var result := match reply
        case Succeeded(_) => MadeGroup
        case Failed(_) => NotifyMessage(Some(FailureText));
      [SetLoading(true), result, SetLoading(false)]
  }

  /** `mutate(action:)`. */
  function Mutate(a: Action, verdict: Verdict, reply: Outcome<(), ()>): (ms: seq<Mutation>)
    requires verdict.success ==> a.title.Some?
    ensures !verdict.success ==> ms == [NotifyMessage(Some(verdict.info))]
    ensures verdict.success ==> |ms| == 3 && ms[0] == SetLoading(true) && ms[2] == SetLoading(false)
    ensures verdict.success ==> (ms[1] == MadeGroup <==> reply.Succeeded?)
  {
    CreateGroupMutations(a.title, verdict, reply)
  }

  /** `reduce(state:mutation:)`. */
  function Reduce(s: State, m: Mutation): (r: State)
    ensures m.MadeGroup? ==> r == s.(completions := s.completions + 1)
    ensures m.NotifyMessage? ==> r == s.(message := m.message)
    ensures m.SetLoading? ==> r == s.(isLoading := m.isLoad)
  {
    match m
    case MadeGroup => s.(completions := s.completions + 1)
    case NotifyMessage(message) => s.(message := message)
    case SetLoading(isLoad) => s.(isLoading := isLoad)
  }

  function ReduceAll(s: State, ms: seq<Mutation>): State
    decreases |ms|
  {
    if |ms| == 0 then s else ReduceAll(Reduce(s, ms[0]), ms[1..])
  }

  /** Reducing a concatenation reduces the first part, then the second. */
  lemma {:induction false} ReduceAllAppend(s: State, xs: seq<Mutation>, ys: seq<Mutation>)
    ensures ReduceAll(s, xs + ys) == ReduceAll(ReduceAll(s, xs), ys)
    decreases |xs|
  {
    if |xs| > 0 {
      assert (xs + ys)[0] == xs[0] && (xs + ys)[1..] == xs[1..] + ys;
      ReduceAllAppend(Reduce(s, xs[0]), xs[1..], ys);
    } else {
      assert xs + ys == ys;
    }
  }

  /**
   * A rejected title shows the validator's text and touches nothing else. An accepted one is
   * loading while the request is in flight and not loading afterwards; a success calls the
   * completion callback once and keeps the message, a failure shows the fixed failure text.
   */
  lemma SubmissionRound(s: State, a: Action, verdict: Verdict, reply: Outcome<(), ()>)
    requires verdict.success ==> a.title.Some?
    ensures var ms := Mutate(a, verdict, reply);
      var r := ReduceAll(s, ms);
      && (!verdict.success ==> r == s.(message := Some(verdict.info)))
      && (verdict.success ==>
            && (forall k :: 1 <= k < |ms| ==> ReduceAll(s, ms[..k]).isLoading)
            && !r.isLoading
            && (reply.Succeeded? ==> r.completions == s.completions + 1 && r.message == s.message)
            && (reply.Failed? ==> r.completions == s.completions && r.message == Some(FailureText)))
  {
    var ms := Mutate(a, verdict, reply);
    if verdict.success {
      assert ms[..1] == [ms[0]] && ms[..2] == [ms[0]] + [ms[1]];
      assert ms == [ms[0]] + [ms[1]] + [ms[2]];
      ReduceAllAppend(s, [ms[0]], [ms[1]]);
      ReduceAllAppend(s, [ms[0]] + [ms[1]], [ms[2]]);
    } else {
      assert ms[1..] == [];
    }
  }
}

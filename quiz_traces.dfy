/** Properties of whole runs of the component: what each push leaves behind,
    what stays monotone, and which messages a user can cause to be sent by
    operating only the controls that are rendered and enabled. */
module QuizTraces {
  import opened QuizState
  import opened QuizView

  /** Every event of `es` is offered by the screen at the moment it happens. */
  predicate Reachable(s: State, es: seq<Event>)
    decreases |es|
  {
    es == [] || (Enabled(s, es[0]) && Reachable(Step(s, es[0]), es[1..]))
  }

  /** No answer was emitted at or after position `from` of the log. */
  predicate NoAnswerSince(log: seq<Message>, from: nat) {
    forall i :: from <= i < |log| ==> !log[i].SubmitAnswer?
  }

  /** The number of join messages in a log. */
  function Joins(log: seq<Message>): nat
    decreases |log|
  {
    if log == [] then 0
    else Joins(log[..|log| - 1]) + (if log[|log| - 1].JoinGame? then 1 else 0)
  }

  /** Reference definitions that read the last relevant push of a run,
      scanning backwards, instead of replaying the run. */
  function OutcomeAfter(w: Option<string>, es: seq<Event>): Option<string>
    decreases |es|
  {
    if es == [] then w
    else match es[|es| - 1]
      case NewProblem(_) => None
      case Winner(d) => Some(d.username)
      case GameOver(d) => Some(d.winner.username)
      case _ => OutcomeAfter(w, es[..|es| - 1])
  }

  function StandingsAfter(lb: seq<Entry>, es: seq<Event>): seq<Entry>
    decreases |es|
  {
    if es == [] then lb
    else match es[|es| - 1]
      case Winner(d) => d.leaderboard
      case GameOver(d) => d.leaderboard
      case _ => StandingsAfter(lb, es[..|es| - 1])
  }

  function CountAfter(q: int, es: seq<Event>): int
    decreases |es|
  {
    if es == [] then q
    else match es[|es| - 1]
      case Winner(d) => d.questionCount
      case _ => CountAfter(q, es[..|es| - 1])
  }

  function ProblemAfter(p: Option<Problem>, es: seq<Event>): Option<Problem>
    decreases |es|
  {
    if es == [] then p
    else match es[|es| - 1]
      case NewProblem(q) => Some(q)
      case _ => ProblemAfter(p, es[..|es| - 1])
  }

  /** Running one more event after a run is one more step. */
  lemma {:induction false} RunSnoc(s: State, es: seq<Event>, e: Event)
    ensures Run(s, es + [e]) == Step(Run(s, es), e)
    decreases |es|
  {
    if es == [] {
      assert [] + [e] == [e];
    } else {
      assert (es + [e])[0] == es[0];
      assert (es + [e])[1..] == es[1..] + [e];
      RunSnoc(Step(s, es[0]), es[1..], e);
    }
  }

  /** The round outcome, the standings, the question counter and the problem
      are whatever the last push that sets them carried: pushes replace them
      wholesale, with no merging, sorting or ordering check. In particular the
      round winner is recorded exactly from a `winner` or `gameOver` push up to
      the next `newProblem`. */
  lemma {:induction false} LastPushDecides(s: State, es: seq<Event>)
    ensures Run(s, es).winner == OutcomeAfter(s.winner, es)
    ensures Run(s, es).leaderboard == StandingsAfter(s.leaderboard, es)
    ensures Run(s, es).questionCount == CountAfter(s.questionCount, es)
    ensures Run(s, es).problem == ProblemAfter(s.problem, es)
    decreases |es|
  {
    if es != [] {
      var init, e := es[..|es| - 1], es[|es| - 1];
      assert es == init + [e] && es[..|es| - 1] == init;
      RunSnoc(s, init, e);
      LastPushDecides(s, init);
      var before := Run(s, init);
      assert Run(s, es) == Step(before, e);
    }
  }

  /** `gameOver` and `gameStarted` are never reset, and the log only grows. */
  lemma {:induction false} RunMonotone(s: State, es: seq<Event>)
    ensures s.gameOver ==> Run(s, es).gameOver
    ensures s.gameStarted ==> Run(s, es).gameStarted
    ensures s.sent <= Run(s, es).sent
    decreases |es|
  {
    if es != [] {
      RunMonotone(Step(s, es[0]), es[1..]);
    }
  }

  /** The session is over exactly when it was already over or a `gameOver`
      push arrived. */
  lemma {:induction false} GameOverIff(s: State, es: seq<Event>)
    ensures Run(s, es).gameOver <==> s.gameOver || exists i :: 0 <= i < |es| && es[i].GameOver?
    decreases |es|
  {
    if es != [] {
      var s1 := Step(s, es[0]);
      GameOverIff(s1, es[1..]);
      if exists i :: 0 <= i < |es| && es[i].GameOver? {
        var i :| 0 <= i < |es| && es[i].GameOver?;
        if i > 0 {
          assert es[1..][i - 1].GameOver?;
        }
      }
      if exists j :: 0 <= j < |es[1..]| && es[1..][j].GameOver? {
        var j :| 0 <= j < |es[1..]| && es[1..][j].GameOver?;
        assert es[j + 1].GameOver?;
      }
    }
  }

  /** Once the game is over no answer can be sent by using the screen: the
      answer area stays hidden even if a later `newProblem` clears the winner. */
  lemma {:induction false} NoAnswerAfterGameOver(s: State, es: seq<Event>)
    requires s.gameOver
    requires Reachable(s, es)
    ensures s.sent <= Run(s, es).sent
    ensures NoAnswerSince(Run(s, es).sent, |s.sent|)
    decreases |es|
  {
    if es != [] {
      var s1 := Step(s, es[0]);
      NoAnswerAfterGameOver(s1, es[1..]);
      var log := Run(s1, es[1..]).sent;
      if |s1.sent| > |s.sent| {
        assert es[0] == ClickJoin;
        assert log[|s.sent|] == s1.sent[|s.sent|];
      }
    }
  }

  /** While a round has a recorded winner and no `newProblem` arrives, no
      answer can be sent by using the screen, and the winner stays recorded. */
  lemma {:induction false} NoAnswerInDecidedRound(s: State, es: seq<Event>)
    requires s.winner.Some?
    requires forall i :: 0 <= i < |es| ==> !es[i].NewProblem?
    requires Reachable(s, es)
    ensures Run(s, es).winner.Some?
    ensures s.sent <= Run(s, es).sent
    ensures NoAnswerSince(Run(s, es).sent, |s.sent|)
    decreases |es|
  {
    if es != [] {
      var s1 := Step(s, es[0]);
      assert forall i :: 0 <= i < |es[1..]| ==> es[1..][i] == es[i + 1];
      NoAnswerInDecidedRound(s1, es[1..]);
      var log := Run(s1, es[1..]).sent;
      if |s1.sent| > |s.sent| {
        assert es[0] == ClickJoin;
        assert log[|s.sent|] == s1.sent[|s.sent|];
      }
    }
  }

  /** Using the screen, at most one join is ever sent, and none once joined:
      `handleJoin` has no guard of its own, but its button leaves the screen
      as soon as a join goes through. */
  lemma {:induction false} JoinsAtMostOnce(s: State, es: seq<Event>)
    requires Reachable(s, es)
    ensures Joins(Run(s, es).sent) <= Joins(s.sent) + (if s.gameStarted then 0 else 1)
    decreases |es|
  {
    if es != [] {
      var s1 := Step(s, es[0]);
      JoinsAtMostOnce(s1, es[1..]);
      if |s1.sent| > |s.sent| {
        assert s1.sent[..|s.sent|] == s.sent;
      } else {
        assert s1.sent == s.sent;
      }
    }
  }

  /** After joining, the username can no longer be edited, and every message
      sent by using the screen is an answer under the joined name. */
  lemma {:induction false} AnswersCarryJoinedName(s: State, es: seq<Event>)
    requires s.gameStarted
    requires Reachable(s, es)
    ensures Run(s, es).username == s.username
    ensures s.sent <= Run(s, es).sent
    ensures forall i :: |s.sent| <= i < |Run(s, es).sent| ==>
              Run(s, es).sent[i].SubmitAnswer? && Run(s, es).sent[i].username == s.username
    decreases |es|
  {
    if es != [] {
      var s1 := Step(s, es[0]);
      AnswersCarryJoinedName(s1, es[1..]);
      var log := Run(s1, es[1..]).sent;
      if |s1.sent| > |s.sent| {
        assert log[|s.sent|] == s1.sent[|s.sent|];
      }
    }
  }

  /** A joined player always has a non-empty name. */
  predicate Consistent(s: State) {
    s.gameStarted ==> s.username != ""
  }

  /** No emitted message carries an empty name or an empty answer text. */
  predicate LogWellFormed(log: seq<Message>) {
    forall i :: 0 <= i < |log| ==>
      log[i].username != "" && (log[i].SubmitAnswer? ==> log[i].answer.text != "")
  }

  /** Starting from the initial state (or any consistent one), the screen can
      only make the client emit joins and answers with non-empty names and
      non-empty answer text. */
  lemma {:induction false} EmittedMessagesNonEmpty(s: State, es: seq<Event>)
    requires Consistent(s) && LogWellFormed(s.sent)
    requires Reachable(s, es)
    ensures Consistent(Run(s, es)) && LogWellFormed(Run(s, es).sent)
    decreases |es|
  {
    if es != [] {
      EmittedMessagesNonEmpty(Step(s, es[0]), es[1..]);
    }
  }

  /** A `newProblem` push reopens the answer controls whenever the player has
      joined and the game is not over, with an empty answer field. */
  lemma NewProblemOpensRound(s: State, p: Problem)
    ensures AnswerControlsLive(View(Step(s, NewProblem(p)))) <==> s.gameStarted && !s.gameOver
    ensures Step(s, NewProblem(p)).userAnswer == ""
  {
  }

  /** A `winner` push disables the answer input and the Submit button. */
  lemma WinnerLocksAnswer(s: State, d: WinnerData)
    ensures !Enabled(Step(s, Winner(d)), ClickSubmit)
    ensures forall t :: !Enabled(Step(s, Winner(d)), TypeAnswer(t))
  {
  }

  /** The round-winner banner follows the recorded winner: after a `winner`
      push onto a joined, running round it shows the pushed name exactly when
      that name is non-empty (an empty name disables the controls but shows no
      banner), and a `newProblem` push removes it. */
  lemma BannerFollowsRoundWinner(s: State, d: WinnerData, p: Problem)
    requires s.gameStarted && !s.gameOver && s.problem.Some?
    ensures View(Step(s, Winner(d))).MainScreen?
    ensures View(Step(s, Winner(d))).answerArea.Some?
    ensures View(Step(s, Winner(d))).answerArea.value.banner ==
              (if d.username != "" then Some(d.username) else None)
    ensures !View(Step(s, Winner(d))).answerArea.value.inputsEnabled
    ensures View(Step(s, NewProblem(p))).MainScreen?
    ensures View(Step(s, NewProblem(p))).answerArea == Some(AnswerArea(p.question, None, "", true))
  {
  }

  /** A `gameOver` push hides the answer area, disables its controls and shows
      the completion panel once joined. */
  lemma GameOverHidesAnswerArea(s: State, d: GameOverData)
    ensures !AnswerAreaVisible(Step(s, GameOver(d))) && !SubmitEnabled(Step(s, GameOver(d)))
    ensures View(Step(s, GameOver(d))).MainScreen? ==>
              View(Step(s, GameOver(d))).completed && View(Step(s, GameOver(d))).answerArea == None
  {
  }

  /** From the join dialog, a click on Join leaves the dialog exactly when
      `handleJoin`'s guard holds; once joined the dialog never comes back. */
  lemma JoinLeavesJoinScreen(s: State, es: seq<Event>)
    requires JoinScreenShown(s)
    ensures JoinScreenShown(Step(s, ClickJoin)) <==> !JoinGuard(s)
    ensures JoinGuard(s) ==> !JoinScreenShown(Run(Step(s, ClickJoin), es))
  {
    RunMonotone(Step(s, ClickJoin), es);
  }
}

/** What the component renders for a given state, reduced to the parts that
    decide which controls the user can reach: the join dialog, the answer area
    with its input and Submit button, the round-winner banner, the game-over
    panel and the ranked leaderboard table. */
module QuizView {
  import opened QuizState

  /** A leaderboard table row: the derived rank, then the server's fields. */
  datatype Row = Row(rank: int, username: string, score: int)

  /** The answer area of the main screen. */
  datatype AnswerArea = AnswerArea(
    question: string,
    banner: Option<string>,
    answerField: string,
    inputsEnabled: bool)

  datatype Screen =
    | JoinScreen(usernameField: string)
    | MainScreen(questionCount: int, answerArea: Option<AnswerArea>, completed: bool, table: seq<Row>)

  /** The early return that shows only the join dialog. */
  predicate JoinScreenShown(s: State) {
    !s.gameStarted
  }

  /** `!gameOver && problem`: an object payload is always truthy. */
  predicate AnswerAreaVisible(s: State) {
    !s.gameOver && s.problem.Some?
  }

  /** Both the answer input and the Submit button are `disabled={winner !== null}`. */
  predicate SubmitEnabled(s: State) {
    s.winner.None?
  }

  /** `winner && ...`: the banner needs a truthy, so non-empty, name. */
  predicate BannerShown(s: State) {
    s.winner.Some? && s.winner.value != ""
  }

  /** The rank column renders the row index plus one. */
  function Rank(index: nat): int {
    index + 1
  }

  /** The leaderboard table, in the order the server supplied. */
  function RankRows(lb: seq<Entry>): seq<Row> {
    seq(|lb|, i requires 0 <= i < |lb| => Row(Rank(i), lb[i].username, lb[i].score))
  }

  /** The rendered screen. */
  function View(s: State): Screen {
    if JoinScreenShown(s) then JoinScreen(s.username)
    else
      var area :=
        if AnswerAreaVisible(s) then
          Some(AnswerArea(
                 s.problem.value.question,
                 if BannerShown(s) then Some(s.winner.value) else None,
                 s.userAnswer,
                 SubmitEnabled(s)))
        else None;
      MainScreen(s.questionCount, area, s.gameOver, RankRows(s.leaderboard))
  }

  /** The answer input and the Submit button are on screen and enabled. */
  predicate AnswerControlsLive(v: Screen) {
    v.MainScreen? && v.answerArea.Some? && v.answerArea.value.inputsEnabled
  }

  /** Whether the rendered screen offers `e` to the user. Server pushes and the
      socket's creation do not depend on the screen. */
  predicate Enabled(s: State, e: Event) {
    match e
    case TypeUsername(_) => View(s).JoinScreen?
    case ClickJoin => View(s).JoinScreen?
    case TypeAnswer(_) => AnswerControlsLive(View(s))
    case ClickSubmit => AnswerControlsLive(View(s))
    case _ => true
  }

  /** The user can type an answer and press Submit exactly when the player has
      joined, the answer area is visible and no round winner is recorded. */
  lemma AnswerControlsLiveIff(s: State)
    ensures AnswerControlsLive(View(s)) <==>
              !JoinScreenShown(s) && AnswerAreaVisible(s) && SubmitEnabled(s)
  {
  }

  /** Ranks are the positions 1..n in the server's order: one row per entry,
      usernames and scores carried over unchanged. This is the definitional
      view of `RankRows`, stated row by row; `RanksAreOneToN` and
      `RanksIgnoreScores` say what it implies. */
  lemma RankRowsFollowOrder(lb: seq<Entry>)
    ensures |RankRows(lb)| == |lb|
    ensures forall i :: 0 <= i < |lb| ==>
              RankRows(lb)[i] == Row(i + 1, lb[i].username, lb[i].score)
  {
  }

  /** The ranks that appear in the table. */
  function Ranks(lb: seq<Entry>): set<int> {
    set r | r in RankRows(lb) :: r.rank
  }

  /** The rank column is exactly {1, ..., n}. */
  lemma RanksAreOneToN(lb: seq<Entry>)
    ensures forall k :: k in Ranks(lb) <==> 1 <= k <= |lb|
  {
    var rows := RankRows(lb);
    forall k | 1 <= k <= |lb|
      ensures k in Ranks(lb)
    {
      assert rows[k - 1] in rows;
    }
  }

  /** Ranks depend on position only: scores, ties and names do not affect them,
      and two rows never share a rank. */
  lemma RanksIgnoreScores(a: seq<Entry>, b: seq<Entry>)
    requires |a| == |b|
    ensures forall i :: 0 <= i < |a| ==> RankRows(a)[i].rank == RankRows(b)[i].rank
    ensures forall i, j :: 0 <= i < j < |a| ==> RankRows(a)[i].rank < RankRows(a)[j].rank
  {
  }
}

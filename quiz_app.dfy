/** The MathQuizApp component as an object: its state hooks are fields, each
    socket handler and each user action is a method that updates them in
    place, and `socket.emit` appends to the outbound log `sent`. */
module QuizApp {
  import opened QuizState
  import opened QuizView
  import opened QuizTraces

  class MathQuizApp {
    var socket: bool
    var problem: Option<Problem>
    var userAnswer: string
    var username: string
    var gameStarted: bool
    var leaderboard: seq<Entry>
    var winner: Option<string>
    var questionCount: int
    var gameOver: bool
    var sent: seq<Message>

    /** The fields as a value of the pure model. */
    function Snapshot(): State
      reads this
    {
      State(socket, problem, userAnswer, username, gameStarted, leaderboard,
            winner, questionCount, gameOver, sent)
    }

    /** The initial values of the state hooks: no socket, no problem, empty
        inputs, not joined, empty standings, no winner, count 0, not over. */
    constructor ()
      ensures !socket && problem == None && userAnswer == "" && username == ""
      ensures !gameStarted && leaderboard == [] && winner == None
      ensures questionCount == 0 && !gameOver && sent == []
      ensures Snapshot() == Initial()
    {
      socket, problem, userAnswer, username := false, None, "", "";
      gameStarted, leaderboard, winner := false, [], None;
      questionCount, gameOver, sent := 0, false, [];
    }

    /** The mount effect stores the newly created socket. */
    method Connect()
      modifies this
      ensures socket
      ensures problem == old(problem) && userAnswer == old(userAnswer) && username == old(username)
      ensures gameStarted == old(gameStarted) && leaderboard == old(leaderboard)
      ensures winner == old(winner) && questionCount == old(questionCount)
      ensures gameOver == old(gameOver) && sent == old(sent)
      ensures Snapshot() == Step(old(Snapshot()), Event.Connect)
    {
      socket := true;
    }

    /** `newProblem`: store the problem, clear the round winner and the typed
        answer; everything else is untouched. */
    method OnNewProblem(p: Problem)
      modifies this
      ensures problem == Some(p) && winner == None && userAnswer == ""
      ensures socket == old(socket) && username == old(username) && gameStarted == old(gameStarted)
      ensures leaderboard == old(leaderboard) && questionCount == old(questionCount)
      ensures gameOver == old(gameOver) && sent == old(sent)
      ensures SubmitEnabled(Snapshot())
      ensures Snapshot() == Step(old(Snapshot()), NewProblem(p))
    {
      problem := Some(p);
      winner := None;
      userAnswer := "";
    }

    /** `winner`: record the round winner and take the standings and the
        question counter from the push as they are, even when the counter does
        not grow; the problem, the typed answer and `gameOver` are untouched. */
    method OnWinner(d: WinnerData)
      modifies this
      ensures winner == Some(d.username) && leaderboard == d.leaderboard
      ensures questionCount == d.questionCount
      ensures problem == old(problem) && userAnswer == old(userAnswer) && gameOver == old(gameOver)
      ensures socket == old(socket) && username == old(username) && gameStarted == old(gameStarted)
      ensures sent == old(sent)
      ensures !SubmitEnabled(Snapshot())
      ensures Snapshot() == Step(old(Snapshot()), Winner(d))
    {
      winner := Some(d.username);
      leaderboard := d.leaderboard;
      questionCount := d.questionCount;
    }

    /** `gameOver`: end the session with the session winner recorded and the
        final standings; the question counter and the problem are untouched. */
    method OnGameOver(d: GameOverData)
      modifies this
      ensures gameOver && winner == Some(d.winner.username) && leaderboard == d.leaderboard
      ensures questionCount == old(questionCount) && problem == old(problem)
      ensures userAnswer == old(userAnswer) && socket == old(socket)
      ensures username == old(username) && gameStarted == old(gameStarted) && sent == old(sent)
      ensures !AnswerAreaVisible(Snapshot()) && !SubmitEnabled(Snapshot())
      ensures Snapshot() == Step(old(Snapshot()), GameOver(d))
    {
      gameOver := true;
      winner := Some(d.winner.username);
      leaderboard := d.leaderboard;
    }

    /** Typing into the username field of the join dialog. */
    method SetUsername(t: string)
      modifies this
      ensures username == t
      ensures socket == old(socket) && problem == old(problem) && userAnswer == old(userAnswer)
      ensures gameStarted == old(gameStarted) && leaderboard == old(leaderboard)
      ensures winner == old(winner) && questionCount == old(questionCount)
      ensures gameOver == old(gameOver) && sent == old(sent)
      ensures Snapshot() == Step(old(Snapshot()), TypeUsername(t))
    {
      username := t;
    }

    /** Typing into the answer field. */
    method SetUserAnswer(t: string)
      modifies this
      ensures userAnswer == t
      ensures socket == old(socket) && problem == old(problem) && username == old(username)
      ensures gameStarted == old(gameStarted) && leaderboard == old(leaderboard)
      ensures winner == old(winner) && questionCount == old(questionCount)
      ensures gameOver == old(gameOver) && sent == old(sent)
      ensures Snapshot() == Step(old(Snapshot()), TypeAnswer(t))
    {
      userAnswer := t;
    }

    /** `handleJoin`: with a non-empty name and a socket, emit exactly one
        `joinGame` and mark the game started; otherwise do nothing. There is no
        "already joined" check. */
    method HandleJoin()
      modifies this
      ensures old(username) != "" && old(socket) ==>
                sent == old(sent) + [JoinGame(old(username))] && gameStarted
      ensures !(old(username) != "" && old(socket)) ==>
                sent == old(sent) && gameStarted == old(gameStarted)
      ensures socket == old(socket) && problem == old(problem) && userAnswer == old(userAnswer)
      ensures username == old(username) && leaderboard == old(leaderboard)
      ensures winner == old(winner) && questionCount == old(questionCount) && gameOver == old(gameOver)
      ensures Snapshot() == Step(old(Snapshot()), ClickJoin)
    {
      if username != "" && socket {
        sent := sent + [JoinGame(username)];
        gameStarted := true;
      }
    }

    /** `handleSubmit`: with a socket, a problem and a non-empty typed answer,
        emit exactly one `submitAnswer` carrying `Number(userAnswer)` and the
        username; otherwise do nothing. It changes no other field, and it does
        not look at `winner` or `gameOver`: the lock lives in the screen. */
    method HandleSubmit()
      modifies this
      ensures old(socket) && old(problem).Some? && old(userAnswer) != "" ==>
                sent == old(sent) + [SubmitAnswer(Number(old(userAnswer)), old(username))]
      ensures !(old(socket) && old(problem).Some? && old(userAnswer) != "") ==> sent == old(sent)
      ensures socket == old(socket) && problem == old(problem) && userAnswer == old(userAnswer)
      ensures username == old(username) && gameStarted == old(gameStarted)
      ensures leaderboard == old(leaderboard) && winner == old(winner)
      ensures questionCount == old(questionCount) && gameOver == old(gameOver)
      ensures Snapshot() == Step(old(Snapshot()), ClickSubmit)
    {
      if socket && problem.Some? && userAnswer != "" {
        sent := sent + [SubmitAnswer(Number(userAnswer), username)];
      }
    }
  }

  /** A round played through the object: alice joins, answers "4" to "2+2",
      wins the round and heads a one-row leaderboard at rank 1; a `gameOver`
      push then hides the answer area and a `newProblem` after it does not
      bring it back. */
  method PlayOneRound()
  {
    var app := new MathQuizApp();
    app.HandleJoin();
    assert app.sent == [] && !app.gameStarted;
    app.Connect();
    app.SetUsername("alice");
    app.HandleJoin();
    assert app.sent == [JoinGame("alice")] && app.gameStarted;
    app.OnNewProblem(Problem("2+2"));
    assert AnswerControlsLive(View(app.Snapshot()));
    app.SetUserAnswer("4");
    app.HandleSubmit();
    assert app.sent == [JoinGame("alice"), SubmitAnswer(Number("4"), "alice")];
    app.OnWinner(WinnerData("alice", [Entry("alice", 1)], 1));
    assert app.winner == Some("alice") && app.questionCount == 1;
    assert RankRows(app.leaderboard) == [Row(1, "alice", 1)];
    assert !AnswerControlsLive(View(app.Snapshot()));
    app.OnGameOver(GameOverData(Entry("bob", 7), [Entry("bob", 7), Entry("alice", 1)]));
    app.OnNewProblem(Problem("3+5"));
    assert app.winner == None && !AnswerControlsLive(View(app.Snapshot()));
  }
}

/** The local state of the quiz client (the MathQuizApp component) and the
    atomic transitions that its socket handlers and its two user actions make.
    Each handler runs to completion before the next event is looked at, so the
    component is a deterministic machine over State and Event. */
module QuizState {

  datatype Option<+T> = None | Some(value: T)

  /** The payload of a `newProblem` push; the client only reads `question`. */
  datatype Problem = Problem(question: string)

  /** One leaderboard row as the server sends it. */
  datatype Entry = Entry(username: string, score: int)

  /** Payload of the `winner` push: who solved the round, the new standings and
      the server's question counter. */
  datatype WinnerData = WinnerData(username: string, leaderboard: seq<Entry>, questionCount: int)

  /** Payload of the `gameOver` push: the session winner and the final standings. */
  datatype GameOverData = GameOverData(winner: Entry, leaderboard: seq<Entry>)

  /** The JavaScript value `Number(text)`. The conversion itself (parsing, NaN,
      floating point) is not modelled: the client never inspects the result, it
      only puts it on the wire. */
  datatype JsNumber = Number(text: string)

  /** Messages the client emits on its socket. */
  datatype Message =
    | JoinGame(username: string)
    | SubmitAnswer(answer: JsNumber, username: string)

  /** The nine state hooks of the component, with the socket reduced to
      "a socket object exists", plus `sent`, the log of everything emitted. */
  datatype State = State(
    socket: bool,
    problem: Option<Problem>,
    userAnswer: string,
    username: string,
    gameStarted: bool,
    leaderboard: seq<Entry>,
    winner: Option<string>,
    questionCount: int,
    gameOver: bool,
    sent: seq<Message>)

  /** Everything that can happen to the component: the socket being created by
      the mount effect, the three server pushes, and the four user inputs
      (typing into either field, clicking Join, clicking Submit). */
  datatype Event =
    | Connect
    | NewProblem(payload: Problem)
    | Winner(result: WinnerData)
    | GameOver(final: GameOverData)
    | TypeUsername(text: string)
    | ClickJoin
    | TypeAnswer(text: string)
    | ClickSubmit

  /** The initial values of the state hooks. */
  function Initial(): State {
    State(false, None, "", "", false, [], None, 0, false, [])
  }

  /** Whether `handleJoin` gets past its guard: a non-empty username and a socket. */
  predicate JoinGuard(s: State) {
    s.username != "" && s.socket
  }

  /** Whether `handleSubmit` gets past its guard: a socket, a problem and a
      non-empty typed answer. It does not look at `winner` or `gameOver`. */
  predicate SubmitGuard(s: State) {
    s.socket && s.problem.Some? && s.userAnswer != ""
  }

  /** One atomic transition. Only the two user actions ever emit, each at most
      one message; nothing resets `gameOver` or `gameStarted`. */
  function Step(s: State, e: Event): (r: State)
    ensures s.gameOver ==> r.gameOver
    ensures s.gameStarted ==> r.gameStarted
    ensures s.sent <= r.sent && |r.sent| <= |s.sent| + 1
    ensures |r.sent| > |s.sent| ==> e == ClickJoin || e == ClickSubmit
  {
    match e
    case Connect => s.(socket := true)
    case NewProblem(p) => s.(problem := Some(p), winner := None, userAnswer := "")
    case Winner(d) =>
      s.(winner := Some(d.username), leaderboard := d.leaderboard, questionCount := d.questionCount)
    case GameOver(d) =>
      s.(gameOver := true, winner := Some(d.winner.username), leaderboard := d.leaderboard)
    case TypeUsername(t) => s.(username := t)
    case ClickJoin =>
      if JoinGuard(s) then s.(sent := s.sent + [JoinGame(s.username)], gameStarted := true) else s
    case TypeAnswer(t) => s.(userAnswer := t)
    case ClickSubmit =>
      if SubmitGuard(s) then s.(sent := s.sent + [SubmitAnswer(Number(s.userAnswer), s.username)]) else s
  }

  /** The state after processing `es` in order, one at a time. */
  function Run(s: State, es: seq<Event>): State
    decreases |es|
  {
    if es == [] then s else Run(Step(s, es[0]), es[1..])
  }
}

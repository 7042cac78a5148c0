# Math quiz client: session state machine

This project models the client side of a real-time multiplayer arithmetic quiz: the `MathQuizApp`
component. The component keeps nine pieces of state:

- the socket
- the current problem
- the typed answer
- the username
- whether the player has joined (`gameStarted`)
- the leaderboard
- the round winner
- the question counter
- whether the game is over

Three server pushes change that state: `newProblem`, `winner` and `gameOver`. Two user actions
talk to the server: `handleJoin` emits `joinGame` and `handleSubmit` emits `submitAnswer`. What
the user can do at any moment is decided by what is rendered: the join dialog, the answer area,
and the disabled state of the answer input and the Submit button.

The model has four modules:

- `QuizState` (quiz_state.dfy): the state as a record, the events, and `Step`/`Run`, one atomic
  transition per handler. A handler runs to completion before the next event is processed.
  `socket.emit` becomes an append to the log `sent`.
- `QuizView` (quiz_view.dfy): the render conditions as pure functions, including the rank column
  (index + 1). `Enabled(s, e)` holds when the rendered screen offers the user action `e`.
- `QuizTraces` (quiz_traces.dfy): lemmas about whole runs. Which fields the last push decides,
  what is monotone, and which messages can be sent using only the controls that are on screen
  and enabled.
- `QuizApp` (quiz_app.dfy): the class `MathQuizApp`. Its fields are the state hooks and it has one
  method per handler or input. Each method states its whole new state and that it agrees with
  `Step`. `PlayOneRound` is a client that plays a round through the object.

Some guards a reader might expect are not in the code; the model follows the code:

- `handleSubmit` does not check `winner` or `gameOver`. The lock is only the disabled button
  (`winner !== null`) and the hidden answer area (`!gameOver && problem`). The model therefore
  states "no answer after a decided round or after game over" only for runs that use the
  rendered controls (`Reachable`).
- `handleJoin` has no "already joined" guard. A second join can only be prevented by the join
  dialog disappearing once `gameStarted` is true.
- Answers are not checked to be numeric. The client sends `Number(userAnswer)` whenever the
  typed text is non-empty.
- The question counter is not required to grow. Each `winner` push overwrites it.
- Malformed pushes are not discarded. The handlers read the payload fields without checking
  them.
- A `newProblem` that arrives after `gameOver` clears the recorded winner, and nothing resets
  `gameOver`. The answer area therefore stays hidden.

## Model

| member | source | states |
|---|---|---|
| `QuizApp.MathQuizApp.constructor` | src/components/MainFile.js:23-31 | Initial state: no socket, no problem, empty answer and name, not joined, empty leaderboard, no winner, count 0, not over, nothing sent |
| `QuizApp.MathQuizApp.Connect` | src/components/MainFile.js:33-37 | The mount effect makes a socket present and changes nothing else |
| `QuizApp.MathQuizApp.OnNewProblem` | src/components/MainFile.js:39-43 | `problem` becomes the payload, `winner` becomes null and `userAnswer` becomes empty; leaderboard, count, `gameOver`, `gameStarted`, username and log are unchanged; the submit controls are enabled afterwards |
| `QuizApp.MathQuizApp.OnWinner` | src/components/MainFile.js:45-50 | `winner`, `leaderboard` and `questionCount` are replaced wholesale by the push, even when the count does not grow; problem, typed answer and `gameOver` are unchanged; the submit controls are disabled afterwards |
| `QuizApp.MathQuizApp.OnGameOver` | src/components/MainFile.js:52-60 | `gameOver` becomes true, `winner` becomes the session winner's name (so non-null) and `leaderboard` the final standings; count and problem are unchanged; the answer area is hidden and the controls are disabled |
| `QuizApp.MathQuizApp.SetUsername` | src/components/MainFile.js:105-111 | Typing in the join dialog changes only `username` |
| `QuizApp.MathQuizApp.SetUserAnswer` | src/components/MainFile.js:159-166 | Typing in the answer field changes only `userAnswer` |
| `QuizApp.MathQuizApp.HandleJoin` | src/components/MainFile.js:67-72 | Appends exactly one `joinGame{username}` and sets `gameStarted` iff the username is non-empty and a socket exists; otherwise neither log nor state changes; all other fields are unchanged |
| `QuizApp.MathQuizApp.HandleSubmit` | src/components/MainFile.js:74-81 | Appends exactly one `submitAnswer{Number(userAnswer), username}` iff socket, problem and a non-empty answer are present; otherwise the log is unchanged; never changes any other field |
| `QuizState.Step` | src/components/MainFile.js:39-81 | No transition resets `gameOver` or `gameStarted`; the log only grows, by at most one message, and only a Join or Submit click makes it grow |
| `QuizView.AnswerControlsLiveIff` | src/components/MainFile.js:102-178 | The answer input and Submit button are on screen and enabled exactly when joined, `!gameOver && problem`, and `winner === null` |
| `QuizView.RankRowsFollowOrder` | src/components/MainFile.js:83-89 | The table has one row per leaderboard entry in server order; row i has rank i + 1 and the entry's username and score |
| `QuizView.RanksAreOneToN` | src/components/MainFile.js:88 | The ranks shown are exactly 1..n |
| `QuizView.RanksIgnoreScores` | src/components/MainFile.js:88 | Ranks depend only on position, not on scores, ties or names, and no two rows share a rank |
| `QuizTraces.LastPushDecides` | src/components/MainFile.js:39-60 | After any run, winner, leaderboard, question count and problem equal what the last push that sets each one carried (reference definitions that scan backwards). So the round winner is non-null exactly from a `winner`/`gameOver` push up to the next `newProblem`, and no leaderboard is merged or reordered |
| `QuizTraces.RunMonotone` | src/components/MainFile.js:52-72 | Over any run, `gameOver` and `gameStarted` never go back to false and the outbound log only grows |
| `QuizTraces.GameOverIff` | src/components/MainFile.js:52-53 | After a run the game is over iff it was over before or a `gameOver` push arrived |
| `QuizTraces.NoAnswerAfterGameOver` | src/components/MainFile.js:135-178 | After `gameOver`, no run using the rendered controls emits another answer, even if a later `newProblem` clears the winner |
| `QuizTraces.NoAnswerInDecidedRound` | src/components/MainFile.js:165-173 | While a winner is recorded and no `newProblem` arrives, no run using the rendered controls emits an answer, and the winner stays recorded |
| `QuizTraces.JoinsAtMostOnce` | src/components/MainFile.js:102-117 | A run using the rendered controls sends at most one `joinGame`, and none if the player has already joined |
| `QuizTraces.AnswersCarryJoinedName` | src/components/MainFile.js:74-117 | Once joined, the username never changes, and every message sent is a `submitAnswer` under the joined name |
| `QuizTraces.EmittedMessagesNonEmpty` | src/components/MainFile.js:67-81 | Starting from a consistent state, a run using the rendered controls emits no message with an empty username and no answer with empty text, and a joined player always has a non-empty name |
| `QuizTraces.NewProblemOpensRound` | src/components/MainFile.js:39-43 | After `newProblem`, the answer controls are live iff the player has joined and the game is not over, and the answer field is empty |
| `QuizTraces.BannerFollowsRoundWinner` | src/components/MainFile.js:144 | After a `winner` push onto a joined, not-over state with a problem, the round-winner banner shows the pushed name iff that name is non-empty, while the controls are disabled either way; after a `newProblem` push no banner is shown |
| `QuizTraces.WinnerLocksAnswer` | src/components/MainFile.js:45-50 | After a `winner` push, neither typing an answer nor clicking Submit is offered |
| `QuizTraces.GameOverHidesAnswerArea` | src/components/MainFile.js:52-60 | After `gameOver`, the answer area is hidden and the controls are disabled; a joined player sees the completion panel and no answer area |
| `QuizTraces.JoinLeavesJoinScreen` | src/components/MainFile.js:67-72 | From the join dialog, clicking Join leaves the dialog iff `handleJoin`'s guard holds; after a successful join the dialog never returns |

## Left out

- Socket creation, the server URL, the transport preference `["websocket", "polling"]` and the `disconnect()` cleanup on unmount are not modelled. They are network I/O inside socket.io. The socket is a flag that `Connect` sets.
- Reconnection, and the deduplication or reordering of pushes, are not modelled. The component does none of this; pushes are processed in the order they arrive.
- The `message.success` toast and the game-over modal are not modelled. They are notifications that change no state.
- JavaScript `Number()` parsing, NaN and floating point are not modelled. `JsNumber = Number(text)` keeps the text that was converted.
- The browser's filtering of input typed into a `type="number"` field is not modelled. Typing may set the field to any string.
- React's asynchronous, batched `setState` is not modelled. Each handler is one atomic transition on the latest state.
- Payloads with missing fields, which would make the JavaScript handlers read `undefined` or throw, are not modelled. The model gives payloads the fields the server protocol names.
- Extra `newProblem` payload fields are not modelled. Only `question` is displayed.
- The hard-coded "/10" next to the question counter is not modelled. It is text only, and the client enforces no round limit.
- antd layout, icons, styles and the table's `rowKey` are not modelled. They are presentation.
- Payload numbers are not modelled as JavaScript numbers. Leaderboard scores and the question counter are taken as integers; the client only stores and displays them.

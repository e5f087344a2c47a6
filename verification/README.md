# shimux: a verified model

shimux makes a terminal emulator look like tmux. A command-line front end parses tmux arguments, keeps a
registry of panes, expands tmux formats and key names, and sends keystrokes over a Unix socket to one agent
per pane, which owns that pane's PTY. A second implementation of the agent, in MoonBit over a Rust shim, is
the PTY proxy. This project models both in Dafny and proves what they are relied on for.

| file | models |
|---|---|
| `Basics.dfy` | an option type and a few functions on sequences, shared |
| `Server.dfy`, `Sums.dfy` | the send-keys socket server: acceptor, handlers, semaphore, WaitGroup, any number of `Close` callers, freely interleaved |
| `ServerRuns.dfy`, `AgentRuns.dfy` | what runs of the server and of the agent look like in the steps taken: which sequence of steps each goroutine goes through, and the counts that follow |
| `Agent.dfy` | `Agent.Run` around that server: the mutex, the PTY master's lifetime, the unlocked write, the copiers, the shutdown order |
| `Client.dfy` | the retrying client and one connection, over a network that loses connections, writes and replies anywhere |
| `Registry.dfy`, `Decimal.dfy` | the pane registry as a value, runs of its operations, persistence, and decimal ids |
| `PaneManager.dfy` | the mutable `Manager` object, each method proved against `Registry` |
| `Format.dfy`, `Keys.dfy`, `Parser.dfy` | format expansion, key names to bytes, argument parsing: loops proved against independent meanings |
| `Commands.dfy` | `Execute` and the handlers, and properties that cross them |
| `Io.dfy`, `Framing.dfy`, `Proxy.dfy` | the write and read loops, message framing, poll buffers, the event loop |
| `Pty.dfy` | the PTY handle table and the descriptor remembered for SIGWINCH |

`dafny verify dfyconfig.toml` checks everything.

## Conventions

* A string is a sequence of bytes, as a Go string is: one character per byte. Integers are unbounded except
  where the source's width shows (32-bit lengths and descriptors in `Framing`).
* Concurrent code is a machine whose steps are the operations other goroutines can come between; a property
  of "every run" quantifies over every finite sequence of enabled steps. Progress claims say that a step is
  enabled and that a natural-number measure drops, so they need no scheduler beyond one that lets an enabled
  step happen. They assume that a callback's or a copier's Write, once under way, returns.
* The PTY master is a Go file whose descriptor the program takes with `Fd` (`agent.go:44-56`, `agent.go:163`),
  which puts it in blocking mode: `Close` fails every later Read and Write and interrupts none that is under way.
* The kernel, the network, the terminal controller and the JSON codec are parameters: schedules of outcomes,
  or a codec assumed only to invert itself on the text in question and not to accept a cut-off request.
* A method that models a source loop is proved equal to a function, and the lemmas say what that function is.

## Where the code and its descriptions differ

The model follows the code.

* A connection beyond the sixteenth is not refused, as `docs/design.md:632` has it: it is accepted and waits for a
  slot (`Server.SeventeenthWaits` is a reachable state in which one does), and it gets one
  (`Server.SlotComesFree`).
* The 1 MB request limit admits one byte more (`Client.SizeLimit`).
* `agent.go:242-244` and `agent.go:249-250` say closing the master ends the two copiers. It ends neither while it
  is in a Read: `Agent.MasterCloseLeavesStdinBlocked` and `Agent.MasterCloseLeavesStdoutBlocked` are runs in which
  `Run` then waits, for terminal input in the one and for a process that still holds the shell's side of the PTY
  in the other. `Agent.ShutdownFate` says from where the copiers stand whether `Run` returns by itself, and
  `Agent.OneEventReleases` what it takes to release it.
* `SendKeys` is at-least-once: `Client.ExactlyOnceIff` says exactly when a text lands once,
  `Client.LostReplyDuplicates` gives a network under which it lands twice.
* A tmux-mode process makes a manager and never loads the saved state (`main.go:71-86`), so a pane id printed by
  one process cannot be killed by another (`Commands.FreshManagerCannotKill`), and every process calls its first pane
  `%0` (`Commands.FreshManagerPrintsZero`); within one manager both are as expected (`Commands.SplitThenKill`).
* In the event loop, input reported together with a hang-up is read once, at most 4096 bytes. For the terminal
  that is `Proxy.HangUpEndsInput`; for the shell's output, of which everything past that chunk is lost at exit,
  `Proxy.HangUpEndsOutput`.
* `read_socket_message` drops a complete message when the client has already hung up
  (`Framing.ReadSocketMessage`).
* Closing a PTY that was never spawned leaves its slave descriptor open (`Pty.PtyTable.Close`).

## Model

| member | source | states |
|---|---|---|
| Server.ReachableInv | poc/poc001-go/internal/agent/protocol.go:100-162 | In every reachable state the semaphore count is the number of slot holders and at most 16, the WaitGroup count is the number of goroutines Close must wait for, each connection is tracked through at most one callback and one completion, and closeOnce runs once |
| Server.InvStep | poc/poc001-go/internal/agent/protocol.go:106-162 | Each of the sixteen kinds of step keeps that accounting |
| Server.NeverRaisedFromZero | poc/poc001-go/internal/agent/protocol.go:114-120 | wg.Add only ever runs on a positive count, wg.Done never on zero, and giving a slot back never blocks |
| Server.AtMostOneCallback | poc/poc001-go/internal/agent/protocol.go:124-152 | No connection ever enters the callback twice or completes twice; how often exactly is ServerRuns.CallsAreDecodes |
| Server.ReturnedMeansQuiet | poc/poc001-go/internal/agent/protocol.go:155-162 | Once a Close has returned, the listener is closed, the acceptor has exited and every handler has ended |
| Server.QuietStep | poc/poc001-go/internal/agent/protocol.go:155-162 | From then on only further Close calls can step, and they change no handler, callback or completion count |
| Server.QuiescentAfterClose | poc/poc001-go/internal/agent/protocol.go:155-162 | After any Close has returned, in every continuation: no handler or acceptor step, no callback, and every connection ever accepted has been handled exactly once |
| Server.MeasureStep | poc/poc001-go/internal/agent/protocol.go:106-162 | A natural measure drops on every step but an accept and a new Close call; a closed listener stays closed and accepts nothing |
| Server.RunsAreBounded | poc/poc001-go/internal/agent/protocol.go:106-162 | Every run from a closed listener is bounded by the measure of its start and four steps per further Close call |
| Server.HandlerCanStep | poc/poc001-go/internal/agent/protocol.go:116-152 | Every unfinished handler can take its own next step in every state |
| Server.FullSemaphoreDrains | poc/poc001-go/internal/agent/protocol.go:114-119 | When the acceptor is blocked on the semaphore, some slot holder can step |
| Server.SeventeenthWaits | poc/poc001-go/internal/agent/protocol.go:94-121 | A reachable state with sixteen connections being handled and a seventeenth accepted, neither refused nor handled, whose acceptor is blocked |
| Server.WaitIsBounded | poc/poc001-go/internal/agent/protocol.go:114-119 | While a connection waits, the number of steps that are no Acquire is bounded by the measure at its start and four per further Close call |
| Server.SlotComesFree | poc/poc001-go/internal/agent/protocol.go:114-119 | A waiting connection gets its slot: a run that takes no Acquire is bounded, a server step is enabled at its end, and a run the server cannot extend has taken it |
| Server.CloseProgress | poc/poc001-go/internal/agent/protocol.go:155-162 | While some Close caller has not returned, a step of the server itself is enabled |
| Server.CloseTerminates | poc/poc001-go/internal/agent/protocol.go:106-162 | A run from a closed listener that cannot be extended by the server has let every Close caller return and handled every accepted connection |
| ServerRuns.HandlerFollowsScript | poc/poc001-go/internal/agent/protocol.go:116-152 | On every run each handler has taken a prefix of one of two sequences of steps and stands where they lead: decoded, callback returned, replied, slot released, done; or not decoded, replied, slot released, done |
| ServerRuns.HandlerStepsExactly | poc/poc001-go/internal/agent/protocol.go:116-152 | The steps a handler can take in any reachable state are exactly those that continue one of the two sequences |
| ServerRuns.CallsAreDecodes | poc/poc001-go/internal/agent/protocol.go:124-152 | On every run the callback has been entered for a connection exactly as often as its request decoded, and the connection handled exactly as often as replied to |
| ServerRuns.HandledMeansCalled | poc/poc001-go/internal/agent/protocol.go:133-151 | A handled connection whose request decoded had its callback entered once and returned before the reply; one whose request did not decode never had it entered |
| ServerRuns.ExactlyOnceAfterClose | poc/poc001-go/internal/agent/protocol.go:155-162 | Once any Close has returned every accepted connection has gone through its whole sequence, so every request that decoded was given to the callback exactly once and no other was, and nothing more happens |
| ServerRuns.CountersAreSteps | poc/poc001-go/internal/agent/protocol.go:100-122 | The semaphore is the slots taken less the slots given back, at most sixteen; the WaitGroup is one plus the handlers added less the goroutines done |
| ServerRuns.AcceptorFollowsScript | poc/poc001-go/internal/agent/protocol.go:106-122 | On every run the acceptor has accepted, taken a slot, added to the WaitGroup and started a handler, in that order, once per handler, until Accept failed and it left |
| ServerRuns.CloserFollowsScript | poc/poc001-go/internal/agent/protocol.go:155-162 | Every Close caller has closed the listener inside closeOnce or found that done, then waited, then returned; and there are as many as calls |
| Agent.ReachableInv | poc/poc001-go/internal/agent/agent.go:167-281 | The invariant of every run of the composed system: master's lifetime by Run's position, callbacks run exactly inside handlers, the mutex has one holder, and Run is past Server.Close only when the server is quiet |
| Agent.InvStep | poc/poc001-go/internal/agent/agent.go:186-275 | Every step of Run, the server, a callback or a copier keeps it |
| Agent.CallbackMeansOpen | poc/poc001-go/internal/agent/agent.go:215-224 | While a callback is under way, before, during or after its critical section, the master is open and a.master is set |
| Agent.CallbackWritesAreSafe | poc/poc001-go/internal/agent/agent.go:215-224 | In every run every callback write, done outside the mutex, goes to an open master, and the "master is closed" branch is unreachable; that the write is made is AgentRuns.OneWritePerCall |
| Agent.NoCallbackAfterMasterClose | poc/poc001-go/internal/agent/agent.go:266-275 | Once Run has closed the master no callback writes, starts or is under way in any continuation |
| Agent.MeasureDrops | poc/poc001-go/internal/agent/agent.go:263-281 | After the shell's exit every step the agent takes by itself lowers a natural measure |
| Agent.ShutdownProgress | poc/poc001-go/internal/agent/agent.go:263-281 | From the shell's exit until Run returns some step of the agent is enabled, except while Run waits and each copier is over or in a Read |
| Agent.ShutdownCompletes | poc/poc001-go/internal/agent/agent.go:263-281 | When the agent's own steps have run out, after at most the measure of them, Run has returned if and only if each copier was over at the start or was ended by an act on the way |
| Agent.CopierFate | poc/poc001-go/internal/agent/agent.go:240-252 | Along any of the agent's own steps a Read under way stays under way, and a copier is over at the end exactly if it was over or an act ended it |
| Agent.ShutdownFate | poc/poc001-go/internal/agent/agent.go:240-277 | Read off where the copiers stand: one in a Read, or a stdin copier about to read, keeps Run from returning by itself; two that are over do not; and once the master is closed Run returns if and only if no Read of it is under way and the stdin copier is over, is about to write, or has a Write under way that fails |
| Agent.OneEventReleases | poc/poc001-go/internal/agent/agent.go:240-277 | When Run waits, one arrival or end of terminal input releases the stdin copier and one of output the stdout copier: after it Run returns if and only if the other copier is not in a Read as well |
| Agent.MasterCloseLeavesStdinBlocked | poc/poc001-go/internal/agent/agent.go:240-277 | A reachable state in which the master is closed, the server quiet and the stdout copier done, yet Run waits and nothing but terminal input can move it |
| Agent.MasterCloseLeavesStdoutBlocked | poc/poc001-go/internal/agent/agent.go:247-277 | A reachable state in which the master is closed, the server quiet and terminal input over, yet Run waits on a Read of the master that only the shell's side can end |
| AgentRuns.CallbackFollowsScript | poc/poc001-go/internal/agent/agent.go:215-224 | On every run each callback has taken a prefix of: entered, mutex taken, master copied and mutex released, written, returned; and stands where it leads |
| AgentRuns.WritesAreSteps | poc/poc001-go/internal/agent/agent.go:222-222 | The writes recorded for a connection are the Write steps its callback took |
| AgentRuns.OneWritePerCall | poc/poc001-go/internal/agent/agent.go:215-224 | In every reachable state a connection has one write for every return of its callback and one for a callback about to return, none otherwise; an idle callback has written exactly as often as it was entered |
| AgentRuns.EveryRequestWritten | poc/poc001-go/internal/agent/agent.go:215-275 | By the time Run closes the master, every accepted connection is handled and every request that decoded has been written exactly once, to an open master, and no other |
| AgentRuns.ServerRun | poc/poc001-go/internal/agent/agent.go:215-269 | Inside every run of the agent the embedded server makes a run of its own, so all that holds of server runs holds here |
| AgentRuns.RunStepsCounted | poc/poc001-go/internal/agent/agent.go:178-281 | Run has got exactly as far as the number of steps it has taken, leaving none out |
| Client.TryOnceOutcome | poc/poc001-go/internal/agent/protocol.go:190-231 | One attempt runs the callback exactly when the connection is made and served and the whole request, of at most 1048577 bytes, arrives; once, on the given text; nil exactly when it also succeeded and was acknowledged |
| Client.BackoffStep | poc/poc001-go/internal/agent/protocol.go:181-184 | Doubling and capping carries min(init*2^k, max) to its next value, for any init up to max |
| Client.DefaultBackoff | poc/poc001-go/internal/agent/protocol.go:37-38 | With the program's constants the sleeps are 10, 20, 40, 80, 160 and from then on 200 ms |
| Client.SendKeys | poc/poc001-go/internal/agent/protocol.go:171-187 | For any attempt limit: success at the first acknowledged attempt, failure only after all of them, at most one callback per attempt and each on the given text, at least one successful one on success, and the k-th sleep is min(init*2^k, max) |
| Client.SendKeysByDefault | poc/poc001-go/internal/agent/protocol.go:37-39 | With the program's constants failure means exactly ten attempts, with the ten listed sleeps |
| Client.NothingLands | poc/poc001-go/internal/agent/protocol.go:173-186 | No callback succeeded if and only if no attempt got through to a succeeding callback |
| Client.ExactlyOnceIff | poc/poc001-go/internal/agent/protocol.go:171-187 | When SendKeys succeeds the callback succeeded at least once, and exactly once if and only if no earlier attempt landed with its reply lost |
| Client.LostReplyDuplicates | poc/poc001-go/internal/agent/protocol.go:173-184 | One lost reply makes the same text land twice |
| Client.SizeLimit | poc/poc001-go/internal/agent/protocol.go:130-142 | A request is served if and only if its encoding has at most 1048577 bytes, one more than 1 MB, and accepted if the callback succeeds |
| Client.OversizedNeverDelivered | poc/poc001-go/internal/agent/protocol.go:130-142 | With more than 1048577 bytes no attempt in any series delivers anything or succeeds |
| Decimal.DigitsOnly | poc/poc001-go/internal/pane/manager.go:176-180 | A rendered id is a nonempty string of decimal digits |
| Decimal.ItoaValue | poc/poc001-go/internal/pane/manager.go:176-180 | Reading a rendering back gives the number |
| Decimal.ItoaInjective | poc/poc001-go/internal/pane/manager.go:176-180 | Different counter values render to different ids |
| Decimal.DigitsByWeight | poc/poc001-go/internal/pane/manager.go:176-180 | The k-th digit from the right is the number divided by ten to the k, modulo ten; there is no leading zero |
| Decimal.ItoaSign | poc/poc001-go/internal/pane/manager.go:176-180 | A negative number is a minus sign and its opposite |
| Registry.ReachableInv | poc/poc001-go/internal/pane/manager.go:65-180 | In every registry any run reaches: panes are keyed by their own id, the order names exactly the panes, strictly increasing by number and below the counter, and at most one pane is active |
| Registry.InvRegister | poc/poc001-go/internal/pane/manager.go:65-77 | Register keeps it |
| Registry.InvUnregister | poc/poc001-go/internal/pane/manager.go:80-95 | Unregister keeps it |
| Registry.InvSetActive | poc/poc001-go/internal/pane/manager.go:155-165 | SetActive keeps it, and afterwards exactly the named pane is active |
| Registry.RegisterAdds | poc/poc001-go/internal/pane/manager.go:65-77 | What Register adds: one pane at the end with the given terminal and nothing else known, alone active if it is the first and inactive otherwise; no other pane changes |
| Registry.UnregisterChanges | poc/poc001-go/internal/pane/manager.go:80-95 | What Unregister changes: that pane and one place of the order; nothing for an unknown id |
| Registry.SetActiveChanges | poc/poc001-go/internal/pane/manager.go:155-165 | What SetActive changes: the active flags, to true for the named pane and false for every other, and nothing for an unknown id |
| Registry.NoDuplicates | poc/poc001-go/internal/pane/manager.go:74-92 | The order holds no id twice |
| Registry.NeverReissued | poc/poc001-go/internal/pane/manager.go:167-180 | Over any run no id is handed out twice, nor one a pane already had when the run began |
| Registry.IdFate | poc/poc001-go/internal/pane/manager.go:65-95 | After any run an id already handed out names its pane if and only if it was registered and has not been unregistered since |
| Registry.UnregisterLast | poc/poc001-go/internal/pane/manager.go:65-95 | Unregistering the pane just registered restores everything but the counter |
| Registry.RemoveFirst | poc/poc001-go/internal/pane/manager.go:87-93 | Splicing out the first match is removing that id from the order |
| Registry.RemovalShifts | poc/poc001-go/internal/pane/manager.go:80-131 | Removal moves exactly the later panes down one index, changes no other pane, and the removed one is found no more |
| Registry.ViewsAgree | poc/poc001-go/internal/pane/manager.go:109-140 | List, IndexOf and the order agree position by position, and the list has every pane |
| Registry.SaveLoadIff | poc/poc001-go/internal/pane/manager.go:183-248 | Loading what was saved restores the registry if and only if the order and the map name the same panes |
| Registry.SavedInOrder | poc/poc001-go/internal/pane/manager.go:183-195 | A saved registry lists its panes in order with the counter |
| Registry.LoadedFrom | poc/poc001-go/internal/pane/manager.go:238-246 | Any list of panes loads to its ids in order, each naming the last pane of that id |
| Registry.ReloadRestores | poc/poc001-go/internal/pane/manager.go:183-248 | Every reachable registry is restored exactly, with its invariant |
| Registry.ReloadedInLockstep | poc/poc001-go/internal/pane/manager.go:183-248 | From then on the copy and the original hand out the same ids and reach the same states under the same operations |
| PaneManager.Pane.constructor | poc/poc001-go/internal/pane/manager.go:13-21 | A pane object carries the given fields |
| PaneManager.Manager.constructor | poc/poc001-go/internal/pane/manager.go:55-62 | A new manager represents the empty registry |
| PaneManager.Manager.NextID | poc/poc001-go/internal/pane/manager.go:168-180 | Returns the counter's rendering, advances it, touches nothing else |
| PaneManager.Manager.Register | poc/poc001-go/internal/pane/manager.go:65-77 | A new object under a new id at the end of the order, active only if it is the first |
| PaneManager.Manager.Unregister | poc/poc001-go/internal/pane/manager.go:80-95 | The search-and-splice removes exactly that pane; an unknown id fails and changes nothing |
| PaneManager.Manager.Get | poc/poc001-go/internal/pane/manager.go:98-106 | The pane filed under the id, or none exactly when there is none |
| PaneManager.Manager.List | poc/poc001-go/internal/pane/manager.go:109-119 | The registered pane objects in registration order |
| PaneManager.Manager.IndexOf | poc/poc001-go/internal/pane/manager.go:122-131 | The position of the first occurrence, or -1 |
| PaneManager.Manager.OrderedList | poc/poc001-go/internal/pane/manager.go:134-140 | The ids in registration order |
| PaneManager.Manager.GetActive | poc/poc001-go/internal/pane/manager.go:143-152 | Some active pane, or none exactly when no pane is active, for every order of iterating over the map |
| PaneManager.Manager.SetActive | poc/poc001-go/internal/pane/manager.go:155-165 | Rewrites every pane's flag in place so that only the named one is active; an unknown id changes nothing |
| PaneManager.Manager.Save | poc/poc001-go/internal/pane/manager.go:183-224 | The file holds the whole snapshot if it succeeds and its old content if any file operation fails; a temporary file stays exactly when a later step and then its removal fail |
| PaneManager.Manager.Load | poc/poc001-go/internal/pane/manager.go:227-248 | On success the object represents what the file holds, with panes of its own; on failure nothing changes |
| PaneManager.SaveAndReload | poc/poc001-go/internal/pane/manager.go:183-248 | Saving a reached manager and loading into a new one gives the same registry, sharing no pane object |
| Format.FindOpen | poc/poc001-go/internal/tmux/format.go:30-30 | The first reference opening, or -1 if there is none |
| Format.FindClose | poc/poc001-go/internal/tmux/format.go:37-37 | The first closing brace, or -1 if there is none |
| Format.ExpandFormat | poc/poc001-go/internal/tmux/format.go:27-47 | The scanning loop computes the tokens of the template, each rendered once, in order |
| Format.NamedValues | poc/poc001-go/internal/tmux/format.go:51-81 | The value each of the thirteen names stands for |
| Format.OtherNames | poc/poc001-go/internal/tmux/format.go:82-85 | Any other name stands for its own reference |
| Format.TokenizeThenUnparse | poc/poc001-go/internal/tmux/format.go:27-47 | The tokens concatenate back to the template; literals open nothing and are maximal, names are closed by their first brace, an unclosed tail comes last |
| Format.UnparseThenTokenize | poc/poc001-go/internal/tmux/format.go:27-47 | Every well-formed token list is the tokenisation of its own text, so the two are inverse |
| Format.UnknownIsVerbatim | poc/poc001-go/internal/tmux/format.go:82-83 | Without a known name the rendering is the template itself |
| Format.FixedIff | poc/poc001-go/internal/tmux/format.go:27-85 | A template is unchanged in every context if and only if it references no known name |
| Format.ExpandConcat | poc/poc001-go/internal/tmux/format.go:27-47 | Expanding a concatenation is concatenating the expansions when the first part's scan ends closed and the join forms no new opening |
| Format.ExpandReference | poc/poc001-go/internal/tmux/format.go:42-43 | One closed reference expands to its value |
| Format.SubstitutedOnce | poc/poc001-go/internal/tmux/format.go:42-44 | A substituted value is never scanned again, whatever it contains |
| Keys.ParseModifiers | poc/poc001-go/internal/tmux/keys.go:166-182 | The loop over prefixes computes the modifier set and the base |
| Keys.XtermModParam | poc/poc001-go/internal/tmux/keys.go:190-202 | One plus the active modifiers' weights, which Keys.ModifierDigit reads back from the bytes |
| Keys.ExpandBaseKey | poc/poc001-go/internal/tmux/keys.go:255-305 | The consumed-flag code computes the base key's expansion, byte keys of 0x80 and above included |
| Keys.ExpandSpecialKey | poc/poc001-go/internal/tmux/keys.go:228-252 | The lookup order of direct names, modified names and characters |
| Keys.BuildSendKeysData | poc/poc001-go/internal/tmux/keys.go:328-338 | The loop concatenates each argument's expansion, or the arguments themselves when literal |
| Keys.KeysInOrder | poc/poc001-go/internal/tmux/keys.go:328-338 | Several keys stand for the concatenation of what each stands for, or of themselves when literal |
| Keys.PlainText | poc/poc001-go/internal/tmux/keys.go:237-240 | A key in no table and without a modifier prefix stands for itself |
| Keys.ModsOfIsSet | poc/poc001-go/internal/tmux/keys.go:166-182 | Which modifiers a list of prefixes gives depends only on which letters occur in it |
| Keys.ParsedPrefixed | poc/poc001-go/internal/tmux/keys.go:166-182 | Any modifier prefixes in front of any base come off again, leaving that base |
| Keys.ExpansionCanonical | poc/poc001-go/internal/tmux/keys.go:228-252 | Permuting, repeating or re-casing prefixes never changes the expansion |
| Keys.ParseUndoesRebuild | poc/poc001-go/internal/tmux/keys.go:309-322 | parseModifiers undoes rebuildKeyName if and only if the base does not itself begin with a modifier prefix |
| Keys.UnresolvableIdempotent | poc/poc001-go/internal/tmux/keys.go:289-293 | An unresolvable modified name comes out in canonical form and expanding it again changes nothing |
| Keys.CtrlLetter | poc/poc001-go/internal/tmux/keys.go:270-281 | Control and a letter give its code modulo 32, in either case and under Shift |
| Keys.UnmodifiedForm | poc/poc001-go/internal/tmux/keys.go:10-160 | The two tables agree: an unmodified key is its modified sequence without the parameters, in SS3 form for F1 to F4 |
| Keys.ModifierDigit | poc/poc001-go/internal/tmux/keys.go:190-215 | In every modified key the digit before the final byte is one more than 1 for Shift plus 2 for Meta plus 4 for Control |
| Keys.ModifiedExamples | poc/poc001-go/internal/tmux/keys.go:190-215 | C-Up, S-F5 and M-Delete, byte by byte |
| Keys.CursorTable | poc/poc001-go/internal/tmux/keys.go:123-131 | The final byte of every cursor key |
| Keys.EditingTable | poc/poc001-go/internal/tmux/keys.go:133-143 | The number of every editing key and its aliases |
| Keys.FunctionTable | poc/poc001-go/internal/tmux/keys.go:145-160 | The letter or number of every function key |
| Keys.PlainKeys | poc/poc001-go/internal/tmux/keys.go:12-17 | The bytes of Enter, Escape, Tab, Space, BSpace, BTab and KPEnter |
| Keys.LowControlNames | poc/poc001-go/internal/tmux/keys.go:10-105 | The bracketed names of the C0 characters below 16 stand for their codes |
| Keys.MiddleControlNames | poc/poc001-go/internal/tmux/keys.go:10-105 | Those from 16 to 23 |
| Keys.HighControlNames | poc/poc001-go/internal/tmux/keys.go:10-105 | Those from 24 on |
| Keys.ControlNameExpands | poc/poc001-go/internal/tmux/keys.go:228-232 | Such a name expands to its character |
| Keys.KeypadExpands | poc/poc001-go/internal/tmux/keys.go:10-105 | A keypad key expands to the character it shows |
| Keys.CharacterBytes | poc/poc001-go/internal/tmux/keys.go:261-290 | A single byte under Shift and Control: raised, NUL, unchanged, or for 128 and above the two UTF-8 bytes of its code |
| Keys.MetaPrependsEscape | poc/poc001-go/internal/tmux/keys.go:299-302 | Meta puts exactly one ESC in front of the rest of the expansion |
| Keys.SelfDelimiting | poc/poc001-go/internal/tmux/keys.go:205-215 | Control sequences in the sense of section 5.4 of ECMA-48 delimit themselves: equal concatenations have equal first sequences |
| Keys.SequenceShape | poc/poc001-go/internal/tmux/keys.go:205-215 | Every modified key is one such control sequence |
| Keys.SequenceInjective | poc/poc001-go/internal/tmux/keys.go:190-215 | Its bytes determine the table entry and the modifier parameter |
| Keys.StyleNamesKey | poc/poc001-go/internal/tmux/keys.go:122-160 | Table entries identify keys up to aliases |
| Keys.SameBytesIffSameKey | poc/poc001-go/internal/tmux/keys.go:122-252 | Two modified keys give the same bytes if and only if they have the same modifiers and name the same key |
| Keys.UniquelyDecodable | poc/poc001-go/internal/tmux/keys.go:204-338 | Two lists of modified keys give the same bytes if and only if they are equally long and name the same keys position by position |
| Parser.ScanThenSpell | poc/poc001-go/internal/tmux/parser.go:110-160 | Dividing an argument list into flags and options with values loses and reorders nothing |
| Parser.SpellThenScan | poc/poc001-go/internal/tmux/parser.go:110-160 | Every list of flags and options, written out, is divided back into itself |
| Parser.ScanFailsIff | poc/poc001-go/internal/tmux/parser.go:136-156 | An error arises exactly when an option that takes a value is last in option position, and names that option |
| Parser.LastValueIsLast | poc/poc001-go/internal/tmux/parser.go:136-156 | An option's value is that of its last occurrence, or empty when it does not occur |
| Parser.LastValueIsGiven | poc/poc001-go/internal/tmux/parser.go:136-156 | The value taken is one given, after which none is, or empty when none is given |
| Parser.ParseSplitWindow | poc/poc001-go/internal/tmux/parser.go:110-160 | The loop returns the meaning of the divided arguments, or its error |
| Parser.LocateDirection | poc/poc001-go/internal/tmux/parser.go:117-135 | The last direction among the tokens is that of the last direction flag in option position |
| Parser.SplitWindowMeans | poc/poc001-go/internal/tmux/parser.go:110-160 | Exactly which inputs fail; otherwise the last direction flag in option position decides, down by default, and Horizontal holds exactly for right |
| Parser.DirectionFlags | poc/poc001-go/internal/tmux/parser.go:117-135 | The six direction flags and what they mean, and that there are no others |
| Parser.SplitWindowReads | poc/poc001-go/internal/tmux/parser.go:110-160 | Any flags and options in any order, written out, give each of -t, -l and -F to its own field and -P to the print flag |
| Parser.TargetReads | poc/poc001-go/internal/tmux/parser.go:297-339 | The same for the target of has-session and kill-pane |
| Parser.ParseTarget | poc/poc001-go/internal/tmux/parser.go:297-339 | The loop of has-session and kill-pane returns the last -t value, or its error |
| Parser.ParseListPanes | poc/poc001-go/internal/tmux/parser.go:350-372 | The last -F and -t values, or the error |
| Parser.ListPanesReads | poc/poc001-go/internal/tmux/parser.go:350-372 | Any flags and options, written out, give -F and -t to their fields |
| Parser.ParseDisplayMessage | poc/poc001-go/internal/tmux/parser.go:385-412 | Whether -p occurs, the last -t value, and as format the last of -F values and positionals |
| Parser.DisplayMessageReads | poc/poc001-go/internal/tmux/parser.go:385-412 | Any flags and options, written out, give -p, -t and the last of -F values and positionals to their fields |
| Parser.ParseSelectPane | poc/poc001-go/internal/tmux/parser.go:216-244 | The last -t, -P and -T values, or the error |
| Parser.SelectPaneReads | poc/poc001-go/internal/tmux/parser.go:216-244 | Any flags and options, written out, give -t, -P and -T to their fields |
| Parser.MissingValues | poc/poc001-go/internal/tmux/parser.go:216-412 | Which argument lists has-session, kill-pane, list-panes, display-message and select-pane refuse |
| Parser.ParseShowOptions | poc/poc001-go/internal/tmux/parser.go:423-437 | Whether -g occurs, and the last other argument |
| Parser.ShowOptionsReads | poc/poc001-go/internal/tmux/parser.go:423-437 | -g is noticed anywhere, and the last argument other than -g is the option |
| Parser.ParseSendKeys | poc/poc001-go/internal/tmux/parser.go:173-203 | The loop returns what the recursive reading of the arguments gives |
| Parser.SendKeysReads | poc/poc001-go/internal/tmux/parser.go:173-203 | Any options followed by nothing, by `--` and keys, by a first key, or by a bare -t are read as exactly that |
| Parser.SendKeysDivides | poc/poc001-go/internal/tmux/parser.go:173-203 | Every argument list has one of those forms |
| Parser.KeysAreSuffix | poc/poc001-go/internal/tmux/parser.go:173-203 | For every input the keys are a suffix of the arguments |
| Parser.Parse | poc/poc001-go/internal/tmux/parser.go:32-94 | The loop returns what the recursive reading of the global options gives |
| Parser.ParseReads | poc/poc001-go/internal/tmux/parser.go:40-71 | Any global options in front of a command line are consumed and set, and the rest is read as if alone |
| Parser.LastGlobalWins | poc/poc001-go/internal/tmux/parser.go:40-71 | Of repeated global options the last of each kind counts, in any order |
| Parser.AfterGlobals | poc/poc001-go/internal/tmux/parser.go:32-94 | What follows the global options decides: nothing, -V, an option without its value, an empty name, or a command |
| Parser.GlobalsDivide | poc/poc001-go/internal/tmux/parser.go:32-94 | Every command line is global options followed by one of those |
| Parser.SendKeysRoundTrip | poc/poc001-go/internal/tmux/parser.go:173-203 | A target, a literal flag and any keys after `--`, written out, are read back |
| Parser.CommandLineRoundTrip | poc/poc001-go/internal/tmux/parser.go:32-203 | A whole command line of global options, send-keys, target, literal flag and keys is read back through both stages |
| Commands.ExtractPaneID | poc/poc001-go/internal/tmux/commands.go:264-292 | The builder loop returns the digits right after the last percent sign |
| Commands.PaneIdRecovered | poc/poc001-go/internal/tmux/commands.go:264-292 | From any prefix, a percent sign and an id's rendering, the rendering is recovered |
| Commands.CommandContext.BuildFormatContext | poc/poc001-go/internal/tmux/commands.go:295-316 | The context of a pane: its fields, its `%` id and its index in the order |
| Commands.CommandContext.PrintPane | poc/poc001-go/internal/tmux/commands.go:138-144 | Appends the pane's expanded line to stdout and changes nothing else |
| Commands.CommandContext.HandleSplitWindow | poc/poc001-go/internal/tmux/commands.go:111-148 | The whole new state: the controller called, the pane registered only if it succeeded, the line printed only with -P |
| Commands.CommandContext.HandleKillPane | poc/poc001-go/internal/tmux/commands.go:192-207 | The surface closed first; then the target unregistered, with an error if it is unknown and nothing if there is no target |
| Commands.CommandContext.HandleListPanes | poc/poc001-go/internal/tmux/commands.go:210-228 | One line per pane in registration order |
| Commands.CommandContext.HandleDisplayMessage | poc/poc001-go/internal/tmux/commands.go:231-252 | The format expanded for some active pane, or for the session alone when none is active |
| Commands.CommandContext.HandleSendKeys | poc/poc001-go/internal/tmux/commands.go:151-182 | Empty data is a no-op before the target is looked at; otherwise the targeted or an active pane gets the data, or it is an error |
| Commands.CommandContext.Execute | poc/poc001-go/internal/tmux/commands.go:25-82 | The dispatch: state and exit code of every command, parse errors and unsupported commands included |
| Commands.PaneIdLine | poc/poc001-go/internal/tmux/commands.go:136-144 | A format that ends in the pane id prints a line that ends in `%` and the id |
| Commands.KillUndoesRegister | poc/poc001-go/internal/tmux/commands.go:192-207 | Killing the pane just registered, by its id behind any text, restores the registry but for the counter |
| Commands.SplitThenKill | poc/poc001-go/internal/tmux/commands.go:131-207 | From any reachable registry, the line `split-window -P` prints, given to `kill-pane -t`, unregisters exactly the new pane and leaves every other pane and their order as they were |
| Commands.PrintedIdNeverRetargets | poc/poc001-go/internal/tmux/commands.go:192-207 | After any further operations the printed id still kills that pane and no other, or, once it is gone, fails and changes nothing |
| Commands.ExecRegistry | poc/poc001-go/internal/tmux/commands.go:25-82 | Whatever a command is and however it fails, it does to the registry at most one registration or removal, a removal exactly for a kill-pane whose surface is closed and of the id its target names |
| Commands.CommandsKeepInv | poc/poc001-go/internal/tmux/commands.go:25-82 | Every sequence of commands, failing ones included, keeps the registry reachable and its invariant |
| Commands.SplitAnythingKill | poc/poc001-go/internal/tmux/commands.go:25-207 | With any commands between split-window -P and kill-pane, the printed line names the pane created, whose id was free before; kill-pane removes exactly that id if and only if none of them was a kill of it, and else fails and changes nothing |
| Commands.ActiveIsDetermined | poc/poc001-go/internal/pane/manager.go:143-152 | On every reachable registry GetActive has one possible answer although it ranges over a map in any order |
| Commands.SendKeysToActive | poc/poc001-go/internal/tmux/commands.go:151-182 | send-keys whose target names no pane, from the raw arguments: the active pane gets exactly the data and the code is the client's success; without one nothing is sent and the code is 1 |
| Commands.SplitAsksController | poc/poc001-go/internal/tmux/commands.go:111-128 | The controller is asked for the direction of the last direction flag in option position, down without one, and if it fails nothing else happens |
| Commands.SplitQuietly | poc/poc001-go/internal/tmux/commands.go:130-147 | Without -P a pane is registered and nothing printed |
| Commands.KillWithoutPane | poc/poc001-go/internal/tmux/commands.go:192-207 | kill-pane closes a surface whatever its target, and does no more if that fails or the target names no pane |
| Commands.HasSessionTells | poc/poc001-go/internal/tmux/commands.go:85-90 | Exit code 0 exactly for the session itself |
| Commands.ShowOptionsAnswers | poc/poc001-go/internal/tmux/commands.go:103-108 | Only -g prefix is answered |
| Commands.NoOps | poc/poc001-go/internal/tmux/commands.go:93-100 | The commands that do nothing, and the warning for any other name |
| Commands.BadArguments | poc/poc001-go/internal/tmux/commands.go:25-82 | Arguments a parser refuses change nothing and give exit code 1 |
| Commands.DisplayMessagePrints | poc/poc001-go/internal/tmux/commands.go:231-252 | With -p the format for the active pane or for the bare session, without it nothing |
| Commands.PaneValues | poc/poc001-go/internal/tmux/commands.go:295-316 | What every name in a format stands for when it is expanded for the pane at a given place |
| Commands.ListPanesLines | poc/poc001-go/internal/tmux/commands.go:210-228 | One line per pane in order, in the given format or the pane id |
| Commands.SendKeysDelivers | poc/poc001-go/internal/tmux/commands.go:151-182 | A whole send-keys command line, through both parser stages, hands exactly the named pane exactly the keys' expansions in order, or the keys themselves with -l |
| Commands.ListPanesNamesAll | poc/poc001-go/internal/tmux/commands.go:210-228 | list-panes prints every pane's id in order, and each printed line names that pane as a target |
| Commands.FreshManagerCannotKill | poc/poc001-go/cmd/shimux/main.go:71-86 | With the unloaded manager of a new process, killing by any pane id fails, after closing a surface |
| Commands.FreshManagerPrintsZero | poc/poc001-go/cmd/shimux/main.go:71-86 | The first split-window -P of every process prints %0, so ids repeat across processes |
| Io.Sink.SysWrite | poc/poc002-pty-proxy/poc3/ffi/src/io.rs:44-50 | What one write call can do: accept a prefix, be interrupted, or fail |
| Io.Source.SysRead | poc/poc002-pty-proxy/poc3/ffi/src/io.rs:17-19 | What one read call can do: hand over a prefix of what is pending, be interrupted, or fail |
| Io.IoWrite | poc/poc002-pty-proxy/poc3/ffi/src/io.rs:36-66 | For every schedule what is delivered is an in-order, unduplicated prefix of the data; the length is returned exactly when all was, -1 exactly for a strict prefix |
| Io.IoRead | poc/poc002-pty-proxy/poc3/ffi/src/io.rs:11-29 | What is returned is the next bytes of the stream, at most the limit, and an error consumes nothing |
| Framing.SignedRoundTrip | poc/poc002-pty-proxy/poc3/lib/agent/agent.mbt:251-278 | Four little-endian bytes and back is the identity on every 32-bit Int, negative ones included |
| Framing.LengthBytes | poc/poc002-pty-proxy/poc3/lib/agent/agent.mbt:251-278 | A header that decodes to a non-negative length is that length's encoding |
| Framing.HeaderBytes | poc/poc002-pty-proxy/poc3/lib/agent/agent.mbt:271-279 | Each header byte by its own weight, the low byte first |
| Framing.HeaderExamples | poc/poc002-pty-proxy/poc3/lib/agent/agent.mbt:270-291 | The headers of two lengths and one whole frame, byte by byte |
| Framing.HeaderLength | poc/poc002-pty-proxy/poc3/lib/agent/agent.mbt:251-255 | The length of a header by its bytes, as a signed 32-bit number |
| Framing.ReadFrameIff | poc/poc002-pty-proxy/poc3/lib/agent/agent.mbt:227-291 | The reader returns m and leaves rest if and only if the stream is m's frame followed by rest and m's length is 1 to the limit |
| Framing.BadLengthRefused | poc/poc002-pty-proxy/poc3/lib/agent/agent.mbt:256-258 | Zero, oversized and sign-bit-set lengths are refused, the header alone being consumed |
| Framing.FramesRoundTrip | poc/poc002-pty-proxy/poc3/lib/agent/agent.mbt:227-291 | Any number of frames in a row is read back in order, leaving what follows |
| Framing.WriteSocketMessage | poc/poc002-pty-proxy/poc3/lib/agent/agent.mbt:270-291 | True exactly when the whole frame went out, otherwise a strict prefix of it did; never false on a sink that accepts |
| Framing.ReadSocketMessage | poc/poc002-pty-proxy/poc3/lib/agent/agent.mbt:227-266 | A message only if exactly its frame was consumed; with full reads exactly what the stream holds; a client that has hung up is not read |
| Framing.PollfdPack | poc/poc002-pty-proxy/poc3/lib/ffi/io.mbt:58-76 | The in-place byte loop fills the buffer with one eight-byte entry per descriptor |
| Framing.PackedFields | poc/poc002-pty-proxy/poc3/lib/ffi/io.mbt:58-76 | Entry i holds the i-th descriptor, -1 included, its events, and no result, whatever its neighbours hold |
| Framing.ReventsRoundTrip | poc/poc002-pty-proxy/poc3/lib/ffi/io.mbt:79-82 | pollfd_revents gives back what poll stored for that entry |
| Framing.Poll | poc/poc002-pty-proxy/poc3/ffi/src/io.rs:98-117 | poll answers from the packed bytes alone: nothing for a negative descriptor, input only where asked for, a hang-up or an error always |
| Framing.AskedIsPacked | poc/poc002-pty-proxy/poc3/lib/ffi/io.mbt:58-76 | What poll is asked for is what was packed |
| Proxy.Agent.SendInput | poc/poc002-pty-proxy/poc3/lib/agent/agent.mbt:157-158 | One input goes through on_input to the master, after everything before it |
| Proxy.Agent.PackEntries | poc/poc002-pty-proxy/poc3/lib/agent/agent.mbt:137-145 | The three descriptors handed to poll: 0 for input or -1 for nothing, the master and the socket for input |
| Proxy.InputsInOrder | poc/poc002-pty-proxy/poc3/lib/agent/agent.mbt:157-195 | Everything handed to on_input counts once in its place, typed or message |
| Proxy.ForwardedInOrder | poc/poc002-pty-proxy/poc3/lib/agent/agent.mbt:157-195 | Each chunk is transformed once and forwarded in its place |
| Proxy.MasterStepInNumbers | poc/poc002-pty-proxy/poc3/lib/agent/agent.mbt:170-178 | At most 4096 bytes of the master when poll reports input (1) |
| Proxy.StdinStepInNumbers | poc/poc002-pty-proxy/poc3/lib/agent/agent.mbt:151-168 | The same of stdin while it is open, and when it is closed: on an error (8), a hang-up (16), or input with nothing left |
| Proxy.SocketTakenInNumbers | poc/poc002-pty-proxy/poc3/lib/agent/agent.mbt:179-199 | A message of 1 to 16384 bytes is taken exactly if the loop goes on, a connection is reported, and the client has input and neither an error nor a hang-up |
| Proxy.Agent.ReadStdin | poc/poc002-pty-proxy/poc3/lib/agent/agent.mbt:151-168 | At most one chunk, only from a readable stdin, forwarded in order; with full reads exactly which chunk, and exactly when stdin is closed for good |
| Proxy.Agent.ReadMaster | poc/poc002-pty-proxy/poc3/lib/agent/agent.mbt:170-178 | At most one chunk, only from a readable master, shown in order; with full reads exactly which |
| Proxy.Agent.ReadSocket | poc/poc002-pty-proxy/poc3/lib/agent/agent.mbt:183-205 | For every schedule of reads nothing is forwarded, or one message, from a connected and readable client, of which exactly the frame was consumed; with full reads exactly the message the stream begins with |
| Proxy.Agent.Dispatch | poc/poc002-pty-proxy/poc3/lib/agent/agent.mbt:150-206 | A round after poll: the typed chunk, the chunk shown and the message, in that order, the message only if the loop goes on |
| Proxy.Agent.PollOnce | poc/poc002-pty-proxy/poc3/lib/agent/agent.mbt:132-207 | It asks poll for input on stdin while that is open, on the master and on the socket, and learns only what was asked for; it returns true exactly if poll succeeds and the master reports neither an error (8) nor a hang-up (16). For every schedule of reads a round keeps both directions transparent, never reads or reopens a closed stdin, and hands on_input at most one typed chunk and then at most one message, whose frame was consumed; with full reads exactly those its events call for |
| Proxy.Agent.Run | poc/poc002-pty-proxy/poc3/lib/agent/agent.mbt:210-213 | The loop stops after the first round with a failed poll, an error (8) or a hang-up (16) on the master, and not before. Over its rounds: with writes that go through, stdout is on_output of the chunks read from the master and the master's input is on_input of chunks and messages, in order; from the moment stdin is closed it is never read again; every message comes framed from its own round's connection; and with full reads everything handed on, chunks and messages interleaved round by round, is what the events and the clients' streams call for |
| Proxy.HangUpEndsInput | poc/poc002-pty-proxy/poc3/lib/agent/agent.mbt:151-168 | A hang-up reported with input ends it: over any further rounds all input gets through if and only if it fitted into one chunk |
| Proxy.MasterRunDivides | poc/poc002-pty-proxy/poc3/lib/agent/agent.mbt:170-178 | Over any rounds with full reads the chunks shown and what is left make up the master's stream, and what is left is exactly what exceeds 4096 bytes per reading round |
| Proxy.HangUpEndsOutput | poc/poc002-pty-proxy/poc3/lib/agent/agent.mbt:170-181 | In the round of the master's hang-up one chunk is shown if input is reported with it and the rest gets through if and only if it fits into that chunk, and nothing is shown if not; over a whole run all output is shown if and only if it is no longer than 4096 bytes per round that read the master |
| Proxy.NoClientNoMessage | poc/poc002-pty-proxy/poc3/lib/agent/agent.mbt:183-205 | Over any rounds without a client only terminal input reaches on_input, whatever the reads return |
| Proxy.NullObserverTransparent | poc/poc002-pty-proxy/poc3/lib/observer/null.mbt:8-9 | With the identity observer what stdout got is exactly what was read from the master |
| Pty.HeldAfter | poc/poc002-pty-proxy/poc3/ffi/src/pty.rs:226-299 | Changing one entry releases exactly the descriptors that entry gives up |
| Pty.PtyTable.Open | poc/poc002-pty-proxy/poc3/ffi/src/pty.rs:17-65 | A new handle is an index never used before; every failure closes both descriptors and leaves the table alone |
| Pty.PtyTable.Spawn | poc/poc002-pty-proxy/poc3/ffi/src/pty.rs:92-237 | A success closes the parent's slave once and marks it; a second spawn, a dead handle or a failed step changes nothing |
| Pty.PtyTable.MasterFd | poc/poc002-pty-proxy/poc3/ffi/src/pty.rs:242-251 | The live entry's master, or -1 |
| Pty.PtyTable.Close | poc/poc002-pty-proxy/poc3/ffi/src/pty.rs:279-300 | Each master is closed once, the handle is dead afterwards, the SIGWINCH descriptor is dropped exactly if it was this one, and a slave never handed to a child leaks |
| Pty.PtyTable.SetupWinch | poc/poc002-pty-proxy/poc3/ffi/src/sig.rs:44-59 | The remembered descriptor is none or a live master afterwards exactly when the given one is, or installing the handler failed |
| Pty.HandlesNeverReused | poc/poc002-pty-proxy/poc3/ffi/src/pty.rs:49-64 | Along every run a closed handle stays dead and a live one keeps denoting the PTY it was opened for |

## Left out

* Real PTYs, ioctl, termios, posix_spawn's individual steps, signal delivery, permissions and paths of files and sockets: only their success or failure enters the model.
* JSON text and SHA-256 socket paths; the codec is assumed faithful on the text at hand, so text that JSON would alter, such as invalid UTF-8, is outside `Client`.
* Deadlines in seconds: a timeout is a failure of the network, at any point.
* Error texts, panics, poisoned Rust mutexes and wrap-around of the 64-bit id counter.
* The `Manager`'s read-write lock: its methods are modelled one at a time. `Save` copies pane pointers under the lock and marshals after releasing it, so a concurrent `SetActive` can show in a snapshot; the model's `Save` is atomic.
* Start-up before the PTY is opened (configuration checks, `CleanStaleSocket`), the SIGWINCH goroutine and the `done` channel of `Agent.Run`.
* `ParseNewWindow`, which no command uses, and `handleSelectPane`, which does nothing.
* `shimux_pty_resize`, `io_close`, `set_nonblocking`, waiting for the child, and the observers' `capture`; observers are pure functions of a chunk.
* The command-line entry points, environment detection, key simulation and shell wrapper.
* A pane surface and a registered pane are not claimed to correspond: `kill-pane` without a target closes the one and not the other, and that is how it is modelled.
- Io.IoWrite: assumes that no descriptor answers EINTR forever, since the retry loop would not end; Io.IoRead does the same for reads.
- Pty.PtyTable.Spawn: one call runs at a time; the source releases the table's mutex between looking the entry up and marking it, so two simultaneous spawns of one handle are not covered.
- Client.SendKeys: what the network will do to each attempt is fixed in advance as a list, one entry per attempt allowed.
- Agent.ShutdownProgress: a Write that never returns, to a PTY nobody drains or a stopped terminal, would block the shutdown; in the model a Write under way returns.
- AgentRuns.EveryRequestWritten: a write is recorded with the connection whose request it carries, not with its text; Client follows the text itself.
- Proxy.Agent.Run: where it ties messages to the clients' streams it takes every accepted connection to be a new one; what holds of each single round does not need that.

# hikari-sakura, modelled in Dafny

A model of the parts of the hikari-sakura Wayland compositor whose correctness
is hardest to see from the code, with proofs of what they promise. Each part is
written twice: as the code runs (classes, arrays, loops, in the order the C has
its statements) and as a specification on values; methods are proved to compute
the specification, and the properties are proved of it, most of them over every
run, every input or every interleaving.

Check everything with `dafny verify dfyconfig.toml` in this directory.

## The parts

- **Unlocking** (`PasswordField`, `UnlockWire`, `Unlocker`, `LockSession`,
  `LockMode`, `UnlockProtocol`, `UnlockProgress`, `ReapWatch`, `HelperRun`). The
  lock screen and its setuid helper are two processes joined by two pipes.
  `LockMode` and `Unlocker` are the two programs; `UnlockProtocol` is the
  transition system they make up together with any number of earlier helpers:
  partial writes and reads, stale replies, hangups, restarts, deaths and reaping
  interleave freely. Its invariant gives the main result: the result handler
  leaves lock mode only if PAM was asked about exactly the password of the most
  recently submitted attempt, authenticated it and allowed the account, and no
  other step of the lock screen leaves it. PAM's own answers are kept in the
  history; no verdict of the model stands for them. `UnlockProgress` proves that
  it can always be left that way again, `ReapWatch` exactly when a child is
  forgotten, and `HelperRun` that the helper of the protocol writes what the
  program of `Unlocker` writes.
- **Text across the pipe** (`Utf8`, `Diagnostics`). The strict decoder is proved
  equal to the grammar in section 4 of RFC 3629; the helper's accumulator and
  the compositor's sanitiser are proved to agree.
- **Touch** (`TouchArbitration`, `TouchCursor`, `TouchDelivery`). Fingers,
  clients, the emulated pointer and gestures, including deactivation re-entered
  from a fired action. `TouchDelivery` says of each event who is sent what, from
  the state before it alone.
- **Layouts** (`LayoutSyntax`, `LayoutParser`, `LayoutPrinter`). Mutually
  recursive parsing of a possibly cyclic, unordered table graph, with the Lua
  stack and the heap accounted for slot by slot and node by node. `LayoutPrinter`
  writes layouts with the names a configuration uses and is what the parser is
  checked against, both ways.
- **Blur** (`BoxBlur`). The in-place running sum against the clamped mean.
- **Top bar** (`BarText`, `BarLine`, `BarSource`). The scrolling window over
  text of unknown validity, the tiny JSON reader against its printer, and the
  reassembly of the helper's stream.
- **Motion** (`WindowMotion`) and **displays** (`DisplayReconfig`).

`Arithmetic` and `Options` are shared helpers.

## Where the code does less than its words

Each of these is proved as an exact condition over all inputs, most with a concrete
case beside it.

- Lock mode is also left, whatever PAM has said, when code outside the lock screen
  cancels the current mode (`UnlocksOnlyOnCurrentPassword`, `CancelLeavesUnasked`).
  Entering drag mode does (src/dnd_mode.c:95-97). So does a view with the focus
  that goes away (src/view.c:789-806): the assertions against it there and in
  src/workspace.c:419 are compiled out by default, and a client's request to be
  activated sets the focus without asking for the mode (src/server.c:1114-1129).
- An accepted attempt is shown as denied when the event loop refuses to watch for
  its reply (`AcceptedIsDeniedIff`, `AcceptedThenDenied`).
- A child left behind is not looked for until the next reap when the event loop
  refuses the retry timer (`WatchedIff`, `RefusedTimerForgets`).
- One backspace removes one byte, not one character (`EraseUndoesChar`).
- Entering the lock overwrites the pid of a helper that has not exited yet
  (`EnterKeepsLedgerIff`, `EnterLosesChild`).
- A recognised swipe whose claim runs an end action that locks the screen leaves
  the fired flag set with no finger down, which costs one later sequence
  (`EmptyIsUnfiredIff`, `FiredOnEmptyScreen`, `FiredIsCleared`).
- Control bytes do not survive the bar's printer and reader: the reader knows
  none of the escapes the printer uses for them (`ReadBackIff`).
- A scale of NaN passes the range check of a layout split, and so do NaN bounds
  (`ScalesInRangeIff`, `NaNPasses`).
- Complete lines held or arriving in the same wake-up as the end of the stream or
  a hangup are never parsed (`EofLosesLinesIff`). After a line too long for the
  buffer its tail is taken for a line of its own (`ParsedIsWholeIff`).
- The blur's 32-bit sum is exact up to radius 8421504 and not beyond. The routine
  caps the radius, so no image with one side of at most 16843009 pixels is
  affected; a larger white one does not stay white (`WhiteStaysIff`).
- A display request that turns the last output off before it turns another one
  on strands the windows on the placeholder output; the other order does not
  (`ViewsStrandedIff`, `SwapStrands`).

## Model

| member | source | states |
|---|---|---|
| Utf8.EncodeInvertsCodepoint | include/hikari/utf8.h:20-42 | What the encoder writes for a Unicode scalar value is one character of the grammar in section 4 of RFC 3629 and spells that value |
| Utf8.CodepointInvertsEncode | include/hikari/utf8.h:20-42 | Every well-formed character is the one the encoder writes for the value it spells |
| Utf8.EncodeHasNoZero | include/hikari/utf8.h:20-42 | No codepoint but U+0000, in range or not, is encoded with a zero byte |
| Utf8.Decode | hikari_unlocker.c:124-171 | The masking, folding and range-checking decoder answers exactly what the grammar does: a character and its size when one starts the input, malformed otherwise |
| Utf8.RangeCheckIsGrammar | hikari_unlocker.c:124-171 | Checking the folded value for overlong forms, surrogates and the upper bound accepts exactly the byte ranges of section 4 of RFC 3629 |
| Utf8.DecodeFirstOfChar | include/hikari/utf8.h:53-99 | Any character is found at the head of the input whatever follows it |
| Utf8.ValidIffCut | include/hikari/utf8.h:44-52 | A byte string is valid exactly when it can be cut into characters, and then in one way only |
| Utf8.CharactersArePrefix | include/hikari/utf8.h:44-52 | Walking a character at a time stops at the end of the longest valid prefix |
| Diagnostics.Accumulator.AppendMessage | hikari_unlocker.c:199-276 | The byte-by-byte accumulator computes old content, separator and the longest whole-character cut of the filtered text, and takes the separator back when nothing follows it |
| Diagnostics.AppendIsMaximal | hikari_unlocker.c:199-276 | The text only grows, by a separator and at least one whole character of the filtered message, and stops short of it only where one more character would pass 500 bytes |
| Diagnostics.NotesArriveInOrder | hikari_unlocker.c:199-276 | Each note gets its turn in order: what it adds comes behind what the notes before it added, nothing later takes it back, and an error note that adds something marks the whole as an error |
| Diagnostics.FirstNoteIsWhole | hikari_unlocker.c:199-276 | A first note whose filtered text fits is there whole |
| Diagnostics.CutIsMaximal | hikari_unlocker.c:237-265 | Truncation keeps whole characters, never exceeds the room and stops only when the next character would not fit |
| Diagnostics.AccumulatorStaysClean | hikari_unlocker.c:173-276 | After any sequence of messages the text is at most 500 bytes of valid UTF-8 with no C0, DEL or C1 codepoint |
| Diagnostics.SanitizeMessage | src/lock_mode.c:456-506 | The in-place sanitiser yields, terminated, the filtered and cut text of whatever arrives, or nothing when it is not valid |
| Diagnostics.SanitizedIsSafe | src/lock_mode.c:426-506 | On an arbitrary reply of any claimed length the result is valid UTF-8 that fits its buffer, and its bytes spell no C0, DEL or C1 control and neither U+2028 nor U+2029 |
| Diagnostics.MalformedIsRejected | src/lock_mode.c:456-506 | A message that is not UTF-8 and could not fill the buffer is not drawn at all |
| Diagnostics.DiagnosticArrives | src/lock_mode.c:440-506 | The compositor never rejects what the helper gathered and shows all of it but U+2028 and U+2029, whatever PAM said and whatever fills the rest of the field; no byte of it spells a control |
| Diagnostics.PlainTextArrives | src/lock_mode.c:456-506 | A valid message of at most 500 bytes in which no byte spells a control is gathered as it is, and drawn as it is if it has no separator either, whatever fills the rest of the field |
| PasswordField.Field.PutChar | src/lock_mode.c:275-286 | A nonzero codepoint whose encoding fits is appended as that encoding; otherwise nothing changes; the buffer past the cursor stays zero |
| PasswordField.Field.DeleteChar | src/lock_mode.c:289-304 | Backspace removes and zeroes the last byte, if there is one |
| PasswordField.Field.ClearBuffer | src/lock_mode.c:156-173 | Clearing zeroes the whole buffer and moves the cursor back |
| PasswordField.Field.EncodeAt | include/hikari/utf8.h:20-42 | The backwards encoding loop writes exactly the encoded character and touches nothing else |
| PasswordField.Field.Length | src/lock_mode.c:677 | strnlen of the buffer is the cursor, for every reachable buffer |
| PasswordField.TypedIsPassword | src/lock_mode.c:275-304 | After any history of typing, deleting and clearing the prefix is free of zeros and shorter than the buffer |
| PasswordField.TypedSpells | src/lock_mode.c:275-304 | Whatever came before the last clearing: scalar values typed since then, if all fit, are exactly the characters of the field, in order |
| PasswordField.EraseUndoesChar | src/lock_mode.c:289-304 | As many backspaces as a character has bytes undo it; a single one does not undo a multi-byte character |
| PasswordField.EraseTakesBytes | src/lock_mode.c:289-304 | n backspaces take exactly the last n bytes |
| UnlockWire.NumberRoundTrip | src/lock_mode.c:688-696 | Fixed-width little-endian numbers are read back as written |
| UnlockWire.HeaderRoundTrip | hikari_unlocker.c:386-416 | The header read back gives the number and length that were sent |
| UnlockWire.WireSplit | src/lock_mode.c:686-715 | In the byte stream of any list of submissions each frame lies right behind the ones before it |
| UnlockWire.FeedStaysInStep | hikari_unlocker.c:386-447 | However the stream is cut into reads the helper recovers the submitted requests one by one and never takes the over-length branch |
| Unlocker.Process.ReadHeader | hikari_unlocker.c:386-404 | The accumulate-until-complete loop returns the whole header, or what there was before the end of the stream |
| Unlocker.Process.ReadBody | hikari_unlocker.c:427-447 | The whole body is in the buffer however it arrives, or reported missing when the stream ends first |
| Unlocker.Process.Deliberate | hikari_unlocker.c:449-601 | One reply under the request's number: a success exactly if PAM authenticates and account management answers success or an expired password; the loop may go on exactly after a wrong password or an account refused by PAM_AUTH_ERR |
| Unlocker.Process.CheckPassword | hikari_unlocker.c:364-601 | One request, however it is cut into reads: consumes what the specification consumes, writes the reply it prescribes and returns its result |
| Unlocker.Process.Run | hikari_unlocker.c:605-653 | The attempt loop writes exactly the replies the specification prescribes for the whole input |
| Unlocker.HelperAnswersInOrder | hikari_unlocker.c:364-653 | From the bytes of any list of submissions reply j answers request j, echoes its number, is judged on exactly its password, and the loop stops at the first verdict that cannot be retried |
| Unlocker.HelperTellsPam | hikari_unlocker.c:449-653 | For any list of submissions, in PAM's own terms: reply j is a success exactly if pam_start works, PAM authenticates exactly the password of request j and the account is allowed, expired password or not; only passes that may be retried are followed by another, and the last one stops for a reason |
| Unlocker.ReplyTells | hikari_unlocker.c:199-601 | Everything PAM says in a pass goes into the reply in order, account management being heard only after authentication; the library's own words come last and only for an account refused without a word |
| Unlocker.OnlyLastSucceeds | hikari_unlocker.c:630-640 | On any input at all only the last reply can be a success |
| Unlocker.RetryIsDenied | hikari_unlocker.c:594-640 | A result that lets the loop go on has written one reply, and that reply is a denial |
| Unlocker.BadFrameEnds | hikari_unlocker.c:386-447 | Less than a header is not answered; a header that announces 1024 bytes or more, or more than arrive, is answered by one denial under its own number, and the helper ends without asking PAM |
| Unlocker.PresentedPassword | hikari_unlocker.c:311-345 | What PAM is handed as a C string is the whole password |
| LockSession.TryReapKeepsLedger | src/lock_mode.c:326-351 | Reaping collects exactly the children that have exited and invents none |
| LockSession.DeferKeepsLedger | src/lock_mode.c:362-384 | Parking moves the child into a free slot and fails, changing nothing, exactly when the table is full |
| LockSession.StartKeepsLedger | src/lock_mode.c:187-272 | Starting a helper keeps descriptors and held children accounted for, whichever step fails; the one child lost is the one outstanding in locker_pid when the code gets as far as fork |
| LockSession.SubmitBeginKeepsLedger | src/lock_mode.c:640-719 | Beginning a submission, with or without a restart, keeps the ledger and leaves a request pipe open exactly when it goes on |
| LockSession.SubmitShows | src/lock_mode.c:640-685 | A submission goes on exactly if both pipe ends are there or a helper starts and the previous child has a free slot; then it takes the next number and shows verifying; otherwise it shows denied and uses no number, and the field is cleared only for want of a slot |
| LockSession.SubmitEndKeepsLedger | src/lock_mode.c:719-752 | Finishing or abandoning a submission keeps the ledger |
| LockSession.SentShows | src/lock_mode.c:719-752 | After the frame the field is empty and the reply is watched for; if it cannot be, both pipes come down and denied is shown |
| LockSession.HandleResultKeepsLedger | src/lock_mode.c:576-635 | The result handler keeps the ledger and unlocks exactly on an adopted success |
| LockSession.ResultShows | src/lock_mode.c:576-635 | Only an accepted reply unlocks; any other adopted reply shows denied with its sanitised explanation, or the earlier one when it has none; a hangup without one shows denied and changes no explanation; only a denial without a hangup keeps pipes and helper |
| LockSession.TimerKeepsLedger | src/lock_mode.c:389-404 | The retry timer keeps the ledger |
| LockSession.EnterKeepsBooks | src/lock_mode.c:1290-1327 | Lock entry, with or without a child outstanding, keeps descriptors and held children accounted for and loses exactly the child it overwrites |
| LockSession.EnterKeepsLedgerIff | src/lock_mode.c:1290-1327 | Lock entry keeps every child accounted for exactly when none is outstanding or no pipe could be made |
| LockSession.EnterShows | src/lock_mode.c:1247-1327 | Locking starts from an empty field and nothing shown, with pipes exactly if a helper could be started |
| LockSession.EnterLosesChild | src/lock_mode.c:1290-1327 | Witness: locking again before the helper of the last session has exited loses that child |
| LockMode.Mode.TryReapLocker | src/lock_mode.c:326-351 | The loops over the pending table and the live child compute the specification and report whether nothing is left |
| LockMode.Mode.DeferLockerPid | src/lock_mode.c:362-384 | The slot search computes the specification |
| LockMode.Mode.ReapLockerHandler | src/lock_mode.c:389-404 | The timer callback is the specified step: it reaps what has exited and disarms itself once nothing is left |
| LockMode.Mode.StartHelper | src/lock_mode.c:187-272 | Pipes, fork and the closing of ends: the new descriptors and child are those of the specification in every outcome, and every descriptor is closed once |
| LockMode.Mode.WriteAll | src/lock_mode.c:698-719 | The partial-write loop delivers the whole frame or stops at an error, having delivered a prefix |
| LockMode.Mode.SubmitPassword | src/lock_mode.c:640-752 | Submitting computes the specification end to end, with the frame of the next number and the typed password on the wire |
| LockMode.Mode.DrainReplies | src/lock_mode.c:536-574 | The read loop takes one whole reply, or all of them on hangup, and adopts the current one |
| LockMode.Mode.LockerResultHandler | src/lock_mode.c:513-635 | The handler computes the specification end to end: success unlocks, a denial explains, a terminal reply or hangup tears the pipe down |
| LockMode.Mode.Explain | src/lock_mode.c:598-624 | The text to draw is the sanitised explanation of the adopted reply, and nothing when no reply was adopted |
| LockMode.Mode.Cancel | src/lock_mode.c:975-1037 | Leaving closes what is open once, clears the field and reaps |
| LockMode.Mode.EnterLock | src/lock_mode.c:1247-1327 | Entering clears the field and starts a helper, whatever locker_pid still holds |
| LockMode.Mode.Press | src/lock_mode.c:830-894 | A key press is the field operation it maps to and touches no descriptor or child |
| UnlockProtocol.TakeKeeps | hikari_unlocker.c:386-447 | A helper read of any size keeps pipe contents, progress and history consistent |
| UnlockProtocol.DecideKeeps | hikari_unlocker.c:449-601 | A verdict keeps them, and records what PAM was asked and what authentication and account management answered |
| UnlockProtocol.SubmitKeeps | src/lock_mode.c:640-719 | A submission keeps the invariant, restarting the helper or not |
| UnlockProtocol.WriteSomeKeeps | src/lock_mode.c:698-719 | A partial write keeps it |
| UnlockProtocol.WriteFailsKeeps | src/lock_mode.c:698-734 | A failed write keeps it |
| UnlockProtocol.DispatchKeeps | src/lock_mode.c:513-635 | A dispatch, readable or hangup, keeps it |
| UnlockProtocol.StepKeeps | src/lock_mode.c:187-1327 | Every step of the two processes, their pipes and the event loop keeps the protocol invariant, lock entry with a child outstanding and cancellation of the mode from elsewhere included |
| UnlockProtocol.RunInv | src/lock_mode.c:187-1327 | The invariant holds at every point of every run |
| UnlockProtocol.UnlocksOnlyOnCurrentPassword | src/lock_mode.c:513-635 | In every run the result handler leaves lock mode exactly when it adopts a success, and then PAM was asked about exactly the password of the most recently submitted attempt under its number, answered success to authentication, and success or an expired password to account management; no other step of the lock screen leaves it, and what does is code elsewhere that cancels the current mode |
| UnlockProtocol.CancelKeeps | src/dnd_mode.c:84-98 | Whoever cancels lock mode from elsewhere, as entering drag mode does, pipes and children stay accounted for |
| UnlockProtocol.CancelLeavesUnasked | src/view.c:789-806 | Witness: a run in which lock mode is cancelled from elsewhere, as a focused view that goes away does, with nothing submitted and nothing accepted |
| UnlockProtocol.StepLoses | src/lock_mode.c:1290-1327 | A step of the protocol loses exactly the child that a lock entry overwrites, and no other step loses any |
| UnlockProtocol.LedgerHolds | src/lock_mode.c:187-424 | At every point of every run both pipe ends are open or neither and what is held are distinct children not yet waited for; every child is held exactly as long as no lock entry has overwritten an outstanding one |
| UnlockProtocol.AdoptedIsCurrent | src/lock_mode.c:536-600 | An adopted success belongs to the current attempt and its own password |
| UnlockProtocol.DrainFinds | src/lock_mode.c:536-574 | A hangup dispatch adopts the current reply whenever it is in the pipe, however many stale ones precede it |
| UnlockProtocol.DrainMisses | src/lock_mode.c:536-574 | and adopts nothing when it is not |
| UnlockProtocol.AcceptedIsNeverDenied | src/lock_mode.c:513-635 | A dispatch never shows an accepted current attempt as denied: with a hangup it unlocks however many stale replies come first, without one it unlocks or throws one stale reply away |
| UnlockProtocol.AcceptedIsDeniedIff | src/lock_mode.c:640-752 | Over all events, once the helper has answered the current attempt with success, the screen turns to denied exactly when the event loop refuses to watch for the reply or a further submission gets nowhere |
| HelperRun.ActKeeps | hikari_unlocker.c:386-601 | Arrival, read, end of input or verdict: what the helper of the protocol has written and has still to write stays the same |
| HelperRun.HelperIsUnlocker | hikari_unlocker.c:364-653 | Left alone on any stream, cut into arrivals and reads in any way, the helper of the protocol has at every point written a beginning of the replies that Unlocker.Process.Run is proved to write, and once it is gone all of them |
| UnlockProgress.NeverWedged | src/lock_mode.c:646-657 | From every locked state of every run, whatever the helper and the pipes have been through, there is a continuation without help from outside the lock screen in which any password the user types is submitted and, PAM accepting it, unlocks; at most two attempts are used up |
| UnlockProgress.DropPipes | src/lock_mode.c:513-635 | Open pipes to a helper that has died come down with the next attempt: its hangup is dispatched and closes them |
| UnlockProgress.FindRoom | src/lock_mode.c:660-675 | With the pending table full one denied attempt collects what has exited and the next finds room |
| UnlockProgress.AcceptedThenDenied | src/lock_mode.c:719-752 | Witness: PAM accepts, the event loop then refuses to watch for the reply, and the attempt is shown as denied |
| ReapWatch.WatchedIff | src/lock_mode.c:386-424 | In every run each held child without pipes has the retry timer armed at every point, exactly if no reap of that run found a child left, no timer, and was refused one |
| ReapWatch.StepForgets | src/lock_mode.c:187-752 | A step leaves such a child without a timer only if there was one already or its own last reap was refused, and always then |
| ReapWatch.TimerCollects | src/lock_mode.c:386-404 | The timer collects every held child that has exited and stays armed exactly as long as one is held |
| ReapWatch.RefusedTimerForgets | src/lock_mode.c:410-424 | Witness: the lock is taken down while the helper lives and no timer can be had |
| TouchArbitration.CancelAllEmpties | src/cursor.c:757-811 | Cancelling before dropping the points leaves no client holding a finger |
| TouchArbitration.ClaimKeeps | src/cursor.c:813-835 | Claiming keeps the invariant even when the pending end action locks the screen in the middle of it |
| TouchArbitration.DeactivateKeeps | src/cursor.c:1412-1516 | Deactivation keeps it, also when re-entered from an action |
| TouchArbitration.DownKeeps | src/cursor.c:358-426 | A finger down keeps it |
| TouchArbitration.UpKeeps | src/cursor.c:429-451 | A lift keeps it |
| TouchArbitration.MotionKeeps | src/cursor.c:454-500 | Motion keeps it |
| TouchArbitration.CancelKeeps | src/cursor.c:503-526 | A hardware cancel keeps it |
| TouchArbitration.DeviceGoneKeeps | src/cursor.c:344-355 | Removal of a touch device keeps it |
| TouchArbitration.ReleaseKeeps | src/cursor.c:307-325 | Releasing the primary contact pairs the emulated button |
| TouchArbitration.StepKeeps | src/cursor.c:307-1032 | Every handler keeps the touch invariant |
| TouchArbitration.RunInv | src/cursor.c:307-1516 | It holds at every point of every run |
| TouchArbitration.NoTouchStranded | src/cursor.c:757-835 | After every event a finger some client holds is an active slot of an unclaimed sequence, so its lift will be forwarded |
| TouchArbitration.SequenceInvariant | src/cursor.c:665-1032 | Counters are the slots, an empty screen is never claimed, a claimed sequence has no primary contact, at most one gesture fires between resets, and emulated presses and releases alternate with one outstanding exactly while a contact is emulated |
| TouchArbitration.EmptyIsUnfiredIff | src/cursor.c:843-906 | An empty screen is unfired after a step exactly unless the step is the one whose claim locks the screen on the motion path |
| TouchArbitration.FiredOnEmptyScreen | src/cursor.c:843-906 | Witness: a press-and-hold binding that locks the screen, then a swipe, leaves the flag set with no finger down |
| TouchArbitration.FiredIsCleared | src/cursor.c:1011-1032 | The flag is cleared by the next lift, cancel or removal that empties the screen |
| TouchCursor.Cursor.CancelClientSequences | src/cursor.c:778-811 | The loop over the slots cancels exactly the clients the specification cancels |
| TouchCursor.Cursor.ResetSlots | src/cursor.c:665-682 | The reset empties every slot |
| TouchCursor.Cursor.DeactivateCursor | src/cursor.c:1412-1516 | Deactivation computes the specification |
| TouchCursor.Cursor.ClaimGesture | src/cursor.c:825-835 | Claim: cancel the clients, release the contact, in that order |
| TouchCursor.Cursor.TouchDown | src/cursor.c:358-426 | The down handler computes the specification that DownDelivers and DownActs pin down |
| TouchCursor.Cursor.TouchUp | src/cursor.c:429-451 | The up handler computes the specification |
| TouchCursor.Cursor.TouchMotion | src/cursor.c:454-500 | The motion handler computes the specification |
| TouchCursor.Cursor.TouchCancel | src/cursor.c:503-526 | The cancel handler computes the specification |
| TouchCursor.Cursor.DeviceRemoved | src/cursor.c:344-355 | Device removal computes the specification |
| TouchDelivery.DownDelivers | src/cursor.c:358-426 | A finger down reaches the client under it exactly if a slot is free, the sequence is unclaimed and the client takes touch, and then that client holds it on top of what the others hold; an action that locks the screen takes all back; in every other case no client gains or loses a finger |
| TouchDelivery.DownActs | src/cursor.c:300-426 | The first contact of a sequence becomes the primary one and runs the action owed or bound; the emulated button goes down exactly if nothing took that contact, in normal mode, over a client without touch |
| TouchDelivery.ContactEnds | src/cursor.c:307-325 | The end of the primary contact lets the emulated button go, runs the action owed in normal mode and ends a move or a resize, and changes nothing else unless that action locks the screen |
| TouchDelivery.RecogniseDoes | src/cursor.c:813-906 | A recognised gesture takes every finger from every client, lets the button go, and runs its action unless ending the contact has just locked the screen |
| TouchDelivery.MotionFiresIff | src/cursor.c:454-500 | A motion fires exactly if its finger is down, the sequence is unclaimed and unfired, has reached three fingers or more, all still down, and matches a binding; otherwise it changes nothing |
| TouchDelivery.LiftDelivers | src/cursor.c:429-451 | A lift reaches its client unless the sequence is claimed, makes a hold exactly under the stated counts, ends the contact if it was the primary one, and the last one leaves the sequence unclaimed and unfired |
| TouchDelivery.CancelDelivers | src/cursor.c:503-526 | A hardware cancel leaves nobody holding a finger and ends the contact if it was the primary one |
| TouchDelivery.DeviceGoneDelivers | src/cursor.c:344-355 | So does the removal of the device the primary contact came from |
| LayoutSyntax.ParseIff | src/configuration.c:75-521 | Parsing succeeds with a layout exactly when the value spells that layout and no element lies deeper than level 64, for every table graph, NaN among its numbers or not |
| LayoutSyntax.ScalesInRangeIff | src/configuration.c:303-358 | Every scale of a layout returned, and each end of a dynamic one, lies between 0.1 and 0.9 exactly when none of the numbers read for them is NaN |
| LayoutSyntax.NaNPasses | src/configuration.c:312 | Witness: a table whose scale is NaN is accepted, with a scale outside the range |
| LayoutSyntax.DenotesOne | src/configuration.c:75-521 | A value spells at most one layout |
| LayoutSyntax.CyclesAreRefused | src/configuration.c:181-300 | A table that contains itself through its halves spells nothing and is refused |
| LayoutSyntax.OrderDoesNotMatter | src/config_lua.c:352-444 | Two walks over the same entries read the same table |
| LayoutSyntax.VerdictIgnoresOrder | src/configuration.c:75-521 | The verdict and the layout do not depend on the order any table of the configuration is walked in |
| LayoutPrinter.RoundTrip | src/configuration.c:45-521 | Every layout a configuration can ask for, of any shape that stays within level 64, is what is parsed from tables that spell it with the literal names and keys, on both axes, either half first, all six functions, defaults left out or written, fixed and dynamic scales |
| LayoutPrinter.PrintedIsParsed | src/configuration.c:45-521 | In particular from a configuration that holds those tables and nothing else |
| LayoutPrinter.AcceptedIsSpelt | src/configuration.c:45-521 | What is accepted is one of the six names or a table of one of three shapes, spelt with literal keys: a named container, or two halves on one axis; no other key, no mixture, no value out of its range but NaN |
| LayoutPrinter.ParsedIsPrintable | src/configuration.c:45-521 | Whatever is parsed, from any graph, is a layout the printer writes, unless a NaN got into its scales |
| LayoutParser.Parser.IterNext | src/config_lua.c:375-444 | Whatever the body left is dropped, the next entry is on the stack, and a false tells the end of the table from a malformed key |
| LayoutParser.Parser.ParseScaleDynamic | src/configuration.c:330-358 | Both bounds, two slots, stack restored |
| LayoutParser.Parser.ParseScale | src/configuration.c:361-398 | The scale of the specification or a refusal, stack restored |
| LayoutParser.Parser.ParseLayoutFunc | src/configuration.c:45-73 | Known names, and the two functions that fix their own number of views |
| LayoutParser.Parser.ContainerEntry | src/configuration.c:92-124 | An entry extends what is known of the container or sinks every table that has it |
| LayoutParser.Parser.ParseContainer | src/configuration.c:76-158 | A container in any key order; one node allocated on success, none otherwise, stack restored |
| LayoutParser.Parser.PairEntry | src/configuration.c:417-455 | A split entry extends what is known or sinks the table; the frame owns exactly the halves it has built, and the level stays within its slots |
| LayoutParser.Parser.ParsePair | src/configuration.c:400-521 | Either split, in any key order: the tree of the specification, or nothing with every node allocated under the call freed once; stack restored. RoundTrip and AcceptedIsSpelt say what that tree is |
| LayoutParser.Parser.ParseSplit | src/configuration.c:202-300 | With room on the Lua stack the verdict and tree are those of the specification; on every path the stack returns to its height, and the nodes left allocated are exactly those of the tree returned |
| LayoutParser.Parser.SplitFree | src/split.c:265-294 | Every node of the tree is freed once and nothing else |
| BoxBlur.BoxBlurLine | src/blur.c:28-74 | The running sum with clamped ends and separate strides stores, for every pixel and channel of a line, the floor of its window sum by the window |
| BoxBlur.Slide | src/blur.c:56-73 | Subtracting the leaving and adding the entering sample in 32-bit arithmetic gives the sum of the next window |
| BoxBlur.SumBounds | src/blur.c:36-47 | The running sum lies between the least and the greatest sample times the window |
| BoxBlur.BoxIsMeanIff | src/blur.c:34-54 | What is stored is the clamped mean for every line exactly up to radius 8421504, where the sum still fits 32 bits |
| BoxBlur.EdgesRepeat | src/blur.c:28-74 | The sum a mean is taken of is the samples of the line within the radius, and its end samples once more for each position past them |
| BoxBlur.WhiteLineIff | src/blur.c:34-54 | A white line of any length comes out white exactly up to radius 8421504 |
| BoxBlur.CappedIsExactIff | src/blur.c:94-106 | The radius the routine works with is within that bound exactly when the radius asked for is or one side is at most 16843009 pixels |
| BoxBlur.CappedIsLargest | src/blur.c:94-106 | A radius within half of both sides is used as asked; any other becomes the largest that is, or one |
| BoxBlur.BlurPass | src/blur.c:118-142 | One pass in place is the row pass followed by the column pass of the specification |
| BoxBlur.Blur | src/blur.c:77-147 | Refused geometry and failed allocation change nothing and report failure; otherwise the image is the specified number of passes with the capped radius |
| BoxBlur.PassIsMean | src/blur.c:116-142 | Up to radius 8421504 each pass replaces each channel by the floor of the mean of its 2r+1 clamped neighbours along the line |
| BoxBlur.SoftenedIsMean | src/blur.c:77-147 | On every image with one side of at most 16843009 pixels, whatever the radius, each pass of the routine is the clamped mean along the rows and then along the columns |
| BoxBlur.SoftenedKeeps | src/blur.c:77-147 | On those images the routine keeps premultiplied ARGB valid and every sample within the least and greatest of its channel |
| BoxBlur.WhiteStaysIff | src/blur.c:77-147 | On every image, a channel that is white everywhere is white after the routine exactly if the radius is at most 8421504 or one side at most 16843009 pixels |
| BoxBlur.PaddingIsKept | src/blur.c:116-142 | Bytes that are not pixels keep their value through any number of passes |
| BoxBlur.BlurredMonotone | src/blur.c:77-147 | Up to radius 8421504 blurring keeps a channel of one image below a channel of another |
| BoxBlur.BlurredWithin | src/blur.c:77-147 | Maximum principle: up to radius 8421504 every sample stays within the least and greatest sample of its channel |
| BoxBlur.BlurredStaysPremultiplied | src/blur.c:77-147 | Up to radius 8421504 valid premultiplied ARGB stays valid after any number of passes |
| BarText.SequenceLen | src/bar.c:117-160 | The length of the character at a position of a C string, 0 when there is none, reading nothing past the terminator |
| BarText.Count | src/bar.c:193-213 | The characters of the valid prefix, and its length in bytes |
| BarText.OffsetOf | src/bar.c:218-232 | Where the nth character starts, or the valid prefix ends |
| BarText.ScrollPeriod | src/bar.c:241-257 | The cycle length of an over-long block, 0 for one that fits |
| BarText.DisplayText | src/bar.c:266-354 | The terminated text written is the block, or the window onto the cyclic word, cut to whole characters that fit |
| BarText.DisplayedIsValid | src/bar.c:259-354 | What is drawn is always valid UTF-8 without a zero and within its room |
| BarText.FittingShowsText | src/bar.c:266-354 | A block that does not overflow is shown as its own text from its first byte on, until the text ends, a byte starts no character or the next character has no room; a valid text that fits is shown whole |
| BarText.WindowIsWhole | src/bar.c:56-79 | For every cap up to 256 an over-long block shows exactly that many characters of the cyclic word, never cut short by its buffer |
| BarText.WindowIsSlice | src/bar.c:266-354 | At offset k an over-long block shows cap characters from the kth on of the word its text and separator make, round to its beginning |
| BarText.StepsForward | src/bar.c:790-823 | A timer step moves a block one character forward, from the last place of the word back to the first; a block that fits stays at its beginning |
| BarText.PeriodReturns | src/bar.c:790-823 | A period of timer steps returns to the same picture |
| BarText.EveryCharacterLeads | src/bar.c:790-823 | Within a period every character of the text has led the window |
| BarLine.JsonEscape | src/topbar.c:98-131 | The printer writes the escapes of the longest prefix whose escapes fit whole |
| BarLine.FindObjectEnd | src/bar.c:505-528 | The scanning loop finds what the specification finds |
| BarLine.ObjectEndIff | src/bar.c:499-528 | The brace found is the first one outside any string, and it is found exactly when there is one |
| BarLine.JsonStringField | src/bar.c:416-461 | Find, measure, allocate and copy give the unescaped value of the specification |
| BarLine.ReadBackIff | src/topbar.c:98-131 | Escaping and reading back is the identity exactly on texts without a byte below 0x20 |
| BarLine.PrintedIsOneLine | src/topbar.c:98-131 | Whatever the texts hold, newlines included, what is printed holds no byte below 0x20 |
| BarLine.UnescapeEscaped | src/bar.c:438-458 | Reading an escaped text gives the text with unknown escapes reduced to their letters |
| BarLine.LineRoundTrip | src/bar.c:535-625 | A printed line reads as its first 32 texts in order; each comes back unchanged exactly when it has no control byte |
| BarSource.Source.ParseLine | src/bar.c:535-625 | The blocks after a line are its texts, each keeping its scroll position exactly when its slot held the same text |
| BarSource.SameTextKeepsPlace | src/bar.c:604-625 | A slot whose text a line leaves as it was keeps its place in the scroll, a changed or new one starts from the beginning; the same line twice changes nothing |
| BarSource.Source.UpdateScrollTimer | src/bar.c:737-781 | The timer is armed exactly when some block overflows |
| BarSource.Source.ScrollTimer | src/bar.c:790-823 | Every over-long block moves on by one, the others return to the start, and the timer is set again exactly when something moved |
| BarSource.Source.MakeRoom | src/bar.c:924-943 | The buffer doubles until the chunk and a terminator fit, and refuses exactly past 64 KiB |
| BarSource.Source.SplitLines | src/bar.c:959-970 | Newlines become terminators; the last complete and the partial line are where the pointers say |
| BarSource.Source.Readable | src/bar.c:888-990 | One wake-up computes the specification: what is held, what is parsed, whether the pipe stays open; length stays below capacity and capacity within the bound |
| BarSource.Reassembly | src/bar.c:888-990 | However bytes are split into reads and wake-ups, what is held is what follows the last newline and the line parsed last is the last complete one |
| BarSource.LastLineIsShown | src/bar.c:888-990 | However the helper's printed lines are split into reads and wake-ups, nothing is left over and the blocks of the line parsed last show the texts of the last line printed, the first 32 of them, each as it was exactly if it has no byte below 0x20 |
| BarSource.SplitDoesNotMatter | src/bar.c:888-990 | Two splittings of the same bytes end in the same place |
| BarSource.EofLosesLinesIff | src/bar.c:892-919 | What is held and what arrives in the same wake-up as the end of the stream or as a hangup is parsed as it would have been otherwise exactly if no line ends in it |
| BarSource.ParsedIsWholeIff | src/bar.c:888-990 | Over any wake-ups, the line handed to the parser is a whole line the helper sent exactly if a complete line came before it in the buffer, or the bytes last thrown away for want of room ended one, or a line has been completed since |
| WindowMotion.EaseMonotone | src/animation.c:63-84 | Every easing climbs from 0 to 1 without turning back |
| WindowMotion.EaseShapes | src/animation.c:63-84 | Linear is the line; ease-out is ahead of it all the way; ease-in-out is behind it before the half, ahead of it after, and its own mirror image; each with its polynomial |
| WindowMotion.ElapsedAcrossWrap | src/animation.c:90-107 | The unsigned difference is the elapsed time across a wrap of the 32-bit clock |
| WindowMotion.AlongMonotone | src/animation.c:112-130 | The truncated position lies between the ends and approaches the target |
| WindowMotion.FlightIsGood | src/animation.c:260-325 | Over any frames of a flight the window is between origin and target, never moves away from the target, and is exactly on it once the duration has passed |
| WindowMotion.FlightFollowsCurve | src/animation.c:90-130 | In the air the window is at the whole pixel at or just before the point the curve gives for the share of the duration that has passed, across a wrap of the clock |
| WindowMotion.StepKeeps | src/animation.c:156-350 | Moves, frames, cancels and resets keep a resting window drawn at its target and a moving one on its way |
| WindowMotion.RunInv | src/animation.c:238-257 | In every run target plus the reported offset is where the window is drawn |
| WindowMotion.RetargetDoesNotJump | src/animation.c:190-209 | A retarget sets off from the last drawn point |
| WindowMotion.MovesWhen | src/animation.c:132-325 | A move sets the window off exactly if animation is on, has a duration, the window is placed and free, and it is in the air or drawn elsewhere; a frame keeps it in the air exactly if all that still holds and the duration has not passed; otherwise it is drawn at the target |
| WindowMotion.View.AnimationMove | src/animation.c:156-235 | The new flight, or the instant placement the caller is told to make |
| WindowMotion.View.Place | src/view.c:440-446 | Offer and placement together keep the scene node where the record says it is drawn |
| WindowMotion.View.Cancel | src/animation.c:328-350 | Finishes at the target and records it |
| WindowMotion.View.AnimationOffset | src/animation.c:238-257 | The offset leads from the target to the scene node |
| WindowMotion.View.Unmap | src/view.c:1658-1659 | Unmapping settles the node at its target and forgets the flight, so that the next map places at once |
| WindowMotion.View.Migrate | src/view.c:2463-2468 | A change of output settles the node against the old one first |
| WindowMotion.AnimationTick | src/animation.c:260-325 | Every view of the output moves by itself, and another frame is asked for exactly while one is in flight |
| DisplayReconfig.Output.Attach | src/output.c:802-841 | Attaching takes both halves or neither |
| DisplayReconfig.Server.NextOutput | src/output.c:1002-1028 | The walk around the ring finds the next output of the desktop, or comes back |
| DisplayReconfig.Server.Evacuate | src/output.c:769-793 | Views go to the next output of the desktop, or to the placeholder |
| DisplayReconfig.Server.SetWantsEnabled | src/output.c:866-918 | Switching an output on or off computes the specification |
| DisplayReconfig.Server.Rollback | src/output_management.c:134-191 | Undoing a failed attach or a refused commit restores every output exactly |
| DisplayReconfig.Server.ConfigurationApply | src/output_management.c:78-258 | A request that is only a test, not permitted, not buildable or not prepared, refused by the backend or by an attach changes nothing; any other carries every head through; success is reported exactly when everything asked for took effect or would be tried |
| DisplayReconfig.Server.HandleRequest | src/output_management.c:267-279 | Exactly one reply is sent, a success exactly when everything asked for took effect or would be tried, and the desktop is settled again |
| DisplayReconfig.RequestKeepsSettled | src/output_management.c:78-258 | Before and after every request, whatever is answered, scene output, layout and desktop membership agree for every output |
| DisplayReconfig.JudgedBy | src/output_management.c:78-258 | The verdict in terms of the request and the answers alone: carried through exactly if it is no test, is permitted, built, prepared and committed, and no output that has to come on is refused |
| DisplayReconfig.RequestDoesWhatItSays | src/output_management.c:78-258 | A test, or a request something stands in the way of, leaves everything as it was; any other puts each named output on or off and where it was asked to be, unless the place was refused, and touches no other |
| DisplayReconfig.ViewsGoToNext | src/output.c:769-793 | When an output goes, its views and no others move: to the first output of the desktop met going up from it, round the end of the list, or to the placeholder if no other is left |
| DisplayReconfig.ViewsStrandedIff | src/output.c:769-793 | No view is lost; one ends on the placeholder exactly when part way through the heads no output is left, and stays there |
| DisplayReconfig.SwapStrands | src/output_management.c:218-258 | Witness: switching one display off and another on in one request leaves the windows behind in one order of the heads and not in the other |

## Left out

Environment, given as parameters or as choices that may go either way:

- PAM: which verdict and which messages a conversation produces.
- fork, exec, dup2, closefrom, signals and memory locking: a child is forked, a descriptor is open or closed, a child exits, a wait succeeds.
- Pipe capacity: a write is partial or complete; it fails only when the reader is gone. A reply of 512 bytes is written in one piece, as src/lock_mode.c:63-73 argues.
- A helper's failing reply write; the compositor then sees the hangup.
- wlroots, Wayland, cairo, Pango and Lua internals: hit tests, commits, allocations and scene nodes answer as they like.

Narrowed:

- Sequence numbers are taken below 2^64; the protocol does not consider their wrap-around.
- UnlockProtocol.CancelKeeps: who outside src/lock_mode.c cancels or replaces the current mode, and when, is an event of the environment; focus, views and drags are not modelled.
- UnlockProgress.NeverWedged: a continuation is shown to exist; that the scheduler, the kernel and the user take it is not modelled.
- LockMode.Mode.Cancel: outputs, backdrops, the clock and the visibility of views are not modelled.
- Utf8.Decode: bit masks and shifts are written as division and remainder on bytes.
- The unused bytes of a reply's message field are arbitrary.
- A client whose seat has no touch resource is not told apart from one that has.
- Gesture thresholds, centroids, spreads and directions: whether the fingers match a binding, and which, is a parameter of the event.
- Touch coordinates, focus and the tablet and touchpad gesture handlers.
- TouchCursor.Cursor.DeactivateCursor: the touchpad gesture flag and the cursor image are not modelled.
- TouchCursor.Cursor.EvaluateGesture: pinch and swipe thresholds, the largest distance and the search of the bindings are one parameter.
- TouchCursor.Cursor.TryHoldGesture: dwell time, drift and the search of the bindings are one parameter.
- TouchCursor.Cursor.GestureDownAt: start positions, the spread baseline and the clock are not modelled.
- TouchCursor.Cursor.TouchDown: coordinates and the emulated pointer enter are not modelled.
- TouchCursor.Cursor.TouchMotion: the motion forwarded to the client, the warp and the mode's own motion are not modelled.
- TouchCursor.Cursor.ModeTouchBegin: focusing the node under the finger is not modelled.
- TouchCursor.Cursor.ModeTouchEnd: the focus refresh is not modelled.
- Binding tables: the binding found for a contact is a parameter, so the search loop of src/normal_mode.c:36-60 is not modelled.
- LayoutSyntax.ParseIff: numbers are reals or NaN, without rounding or infinities, which the range check refuses as it does any number out of range; values with metatables are not covered.
- The iterator's refusal of a value that is not a table (src/config_lua.c:363) is not reached by the layout parser and not modelled.
- LayoutParser.Parser.ParseSplit: completeness is stated for a Lua stack with room for every level down to 64; without room the parser may refuse, and then still frees and restores everything.
- LayoutParser.Parser.ParsePair: parse_vertical and parse_horizontal are one method with the axis as a parameter, as one macro spells both.
- BoxBlur.Blur: the stride is a whole number of pixels, as the routine demands, and the buffer holds the image; int overflow in the geometry itself is not considered.
- BarText.DisplayText: int overflow of counts and offsets is not considered.
- BarLine.LineRoundTrip: fields other than full_text are any bytes that close their strings and hold no closing brace outside them; their values are not read, because key lookup is textual and only the first-placed key is found whatever the text holds.
- BarLine.JsonEscape: the helper's own sensors and the 128-byte buffers its texts come from are not modelled.
- BarSource.Source.ParseLine: width, colour and alignment of a block are not modelled.
- BarSource.Source.Readable: repainting and the cache key it is compared by are not modelled.
- WindowMotion.FlightIsGood: exact reals, and a configuration that stays the same during the flight; floating-point rounding is left out.
- WindowMotion.View.AnimationMove: the damage asked for along the way is not modelled.
- WindowMotion.View.Migrate: the relinking of the view's lists is not modelled.
- WindowMotion.AnimationTick: damage and frame scheduling are left out, and views of one output are distinct objects.
- DisplayReconfig.Output.Detach: the bar node that is switched off is not modelled.
- DisplayReconfig.Server.Evacuate: focus and the change of mode are not modelled.
- DisplayReconfig.Server.SetWantsEnabled: lighting the panel, geometry other than position, bars, wallpapers and focus are left out; a view is known by the output it lives on.
- DisplayReconfig.Server.NextOutput: only the direction used to evacuate views is modelled.

Not modelled, because it would add only easy members or depends on what is not here:

- Bar drawing and placement, wallpaper, clock, lock indicator, borders and stacking order.
- Action name tables, pointer, keyboard and view options, marks, the control socket and platform probing.
- Layer shell, foreign toplevels, sheets, workspaces, assign and select modes.

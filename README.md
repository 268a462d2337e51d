# PTZ joystick control: command dispatch and selection broadcast

This project models, in Dafny, the part of PTZJoystickControl that turns a
gamepad's camera roster into a selectable command and mirrors the selection
to push-channel clients. Three components are modelled:

- **The camera-select command** (`SelectCamera.SelectCameraCommand`). It caches
  the gamepad's roster (an observable collection of cameras) and keeps its
  event handlers attached to that collection and to each camera in it. It
  offers the roster as indexed options. `Execute` writes the gamepad's
  selected camera and asks the connection registry to broadcast a
  `selectedCameraChanged` event.
- **The connection registry** (`WebSockets.WebSocketHandler`). Each
  accepted connection is registered, receives until the peer sends a close
  status, and is then deregistered and closed. A broadcast sends the UTF-8
  bytes of a message to every registered socket whose state is Open.
- **The command factory** (`Commands.CommandsService`). It returns the ten
  commands of a gamepad in a fixed order. The ninth is a new camera-select
  command wired to the factory's registry.

How things are represented:

- Cameras, collections and the gamepad are classes with mutable fields
  (`Devices`). Other code mutates them and then raises the events the
  command handles.
- The handlers the command has attached are a `Handlers` value. It holds a
  flag for the gamepad handler and two multisets, because a .NET event
  holds one entry per `+=` and `-=` removes one.
- The notices raised to local observers (`PropertyChanged`,
  `CollectionChanged`) and the envelopes requested for broadcast are
  sequences the methods append to.
- A camera's Name may be null, so it is an `Option<string>`. The only guard on
  broadcasting is a null name, so selecting a camera whose Name is null
  requests no broadcast, and neither does constructing the command while one
  is selected.
- A socket is an identifier. The state it reports, the sends that throw
  and the receives its peer delivers are inputs to each operation.
- Each `foreach` loop of the source is a `while` loop. It is proved against a
  pure function (`Moved`, `AfterChange`, `OpenSockets`, `SessionResult`),
  and the lemmas are proved about those functions.

The modules are:

- `Wrappers`: Option and Outcome.
- `Utf8`: `Encoding.UTF8.GetBytes` and a decoder that partners it.
- `Decimal`: the integer formatting of the out-of-range text, with a parser
  that partners it.
- `Collections`: the collection-changed event arguments, what they describe,
  and `List<T>.Remove`.
- `Devices`, `Messages`: the collaborators and the envelope of
  Application/Services/WebSocketMessage.cs.
- `WebSockets`, `SelectCamera`, `Commands`: the three components.

Where the code does something other than the behaviour one would expect, the
model follows the code:

- A receive that throws ends the connection's handling with the connection
  still registered (`OnReceive`, `Faulted`). Only a close status
  deregisters.
- The first send that throws ends the broadcast. Later sockets get nothing,
  and the failure goes back to the caller (`WebSocketHandler.NotifyClients`).
  The command's `NotifyClients` catches it and only logs it, so the command
  records the request either way.
- A Reset (`Clear()`) carries no old items and an old starting index of
  -1. So it neither clears the selection nor detaches the rename
  handlers. A selection can then name a camera that is no longer in the
  roster (`ResetKeepsStaleSelection`), and the cleared cameras keep their
  handlers (`ResetBreaksAttachment`).
- `Execute` requests a broadcast on every successful call for a camera whose
  Name is not null, also for an
  index that is already selected. A selection change made any other way is
  not broadcast, because the handler for that is commented out.
- The out-of-range text goes to the one-string constructor of
  `ArgumentOutOfRangeException`, which takes a parameter name. The model
  therefore carries it as `ArgumentOutOfRange(paramName)`.
- The `e != null` test in `OnCamerasChanged` comes after `e` has already been
  dereferenced, so it is always true, and the model has no branch for it.

What the frames say:

- The `modifies` clauses state what each operation cannot change.
- `Execute` and `NotifyClients` cannot touch the handlers or the notices.
- `OnCamerasChanged`, `OnDeviceChange` and the roster setter cannot touch
  the broadcast log, so clearing the selection or replacing the roster
  never requests a broadcast.
- `WebSocketHandler.NotifyClients` modifies nothing, so a broadcast never
  changes the registry.

## Model

| member | source | states |
|---|---|---|
| `Utf8.EncodeScalar` | Application/Services/WebSocketService.cs:31 | each character becomes one to four bytes, and every byte after the first is a continuation byte |
| `Utf8.Encode` | Application/Services/WebSocketService.cs:31 | the encoding of a string has between one and four bytes per character |
| `Utf8.DecodeScalar` | Application/Services/WebSocketService.cs:31 | a decoded scalar consumes at least one byte and no more than it is given |
| `Utf8.Decode` | Application/Services/WebSocketService.cs:31 | the decoder that partners the encoding: a decoded message has no more characters than there are bytes; `DecodeEncode` proves it inverts `Encode` |
| `Utf8.DecodeEncodeScalar` | Application/Services/WebSocketService.cs:31 | the bytes of one character decode back to that character, whatever follows them |
| `Utf8.DecodeEncode` | Application/Services/WebSocketService.cs:31 | the bytes a broadcast sends decode back to the exact message |
| `Utf8.EncodeInjective` | Application/Services/WebSocketService.cs:31 | two different messages never share a byte encoding |
| `Decimal.DigitChar` | Application/Commands/SelectCameraCommand.cs:141 | a digit value below ten becomes a decimal digit character |
| `Decimal.DigitValue` | Application/Commands/SelectCameraCommand.cs:141 | a digit character stands for a value below ten |
| `Decimal.NatToDecimal` | Application/Commands/SelectCameraCommand.cs:141 | a count is written as a non-empty run of digits with no leading zero |
| `Decimal.IntToDecimal` | Application/Commands/SelectCameraCommand.cs:141 | a value is written with a leading minus exactly when it is negative, followed by digits |
| `Decimal.LeadingDigits` | Application/Commands/SelectCameraCommand.cs:141 | the leading digits of a text are a prefix of it made of digits only |
| `Decimal.AfterLastSpace` | Application/Commands/SelectCameraCommand.cs:141 | the last word of a text contains no space |
| `Decimal.ParseInt` | Application/Commands/SelectCameraCommand.cs:141 | the reader that partners the integer formatting: it reads only non-empty text, and reads a negative value only after a leading minus; `IntToDecimalRoundTrip` proves it inverts `IntToDecimal` |
| `Decimal.NatToDecimalRoundTrip` | Application/Commands/SelectCameraCommand.cs:141 | reading back a written count gives the count |
| `Decimal.IntToDecimalRoundTrip` | Application/Commands/SelectCameraCommand.cs:141 | parsing a written value gives the value, including negative ones |
| `Decimal.LeadingDigitsOf` | Application/Commands/SelectCameraCommand.cs:141 | the digits of a count are found again when a non-digit follows them |
| `Decimal.AfterLastSpaceOf` | Application/Commands/SelectCameraCommand.cs:141 | the word after the last space is found again when it has no space |
| `SelectCamera.OutOfRangeText` | Application/Commands/SelectCameraCommand.cs:140-141 | the text the out-of-range error carries starts with the fixed opening; `OutOfRangeTextReportsCount` and `OutOfRangeTextReportsValue` show that the count and the value can be read back from it |
| `SelectCamera.OutOfRangeTextReportsCount` | Application/Commands/SelectCameraCommand.cs:140-141 | the out-of-range text reports the roster count right after its fixed opening |
| `SelectCamera.OutOfRangeTextReportsValue` | Application/Commands/SelectCameraCommand.cs:140-141 | the out-of-range text ends with the rejected value |
| `SelectCamera.Project` | Application/Commands/SelectCameraCommand.cs:123-124 | the projection has one option per camera: option i carries camera i's name and the value offset + i |
| `SelectCamera.SelectCameraCommand.Options` | Application/Commands/SelectCameraCommand.cs:123-124 | there are as many options as cameras in the roster, option i is labelled with camera i's current name (absent when its Name is null) and carries the value i, and an empty roster gives no options |
| `SelectCamera.BroadcastFor` | Application/Commands/SelectCameraCommand.cs:38-68 | an absent name requests no broadcast; a present name requests exactly one `event`/`selectedCameraChanged` envelope carrying it |
| `SelectCamera.SelectedName` | Application/Commands/SelectCameraCommand.cs:24 | `SelectedCamera?.Name` gives a name exactly when a camera is selected and its Name is not null, and then it is that camera's Name |
| `SelectCamera.SelectionAfter` | Application/Commands/SelectCameraCommand.cs:96-97 | after a collection change the selection is either kept or cleared, never moved to another camera; `SelectionAfterCases` says which, and `SelectionStaysInRoster` shows what it keeps is still in the roster |
| `SelectCamera.SelectionAfterCases` | Application/Commands/SelectCameraCommand.cs:96-97 | a Move never clears the selection and neither does an event without old items; any other event whose old items hold the selected camera clears it; the selection is kept only in those cases |
| `SelectCamera.SelectionStaysInRoster` | Application/Commands/SelectCameraCommand.cs:96-97 | after an Add, Remove, Replace or Move, a selection that was in the roster is either in the new roster or cleared |
| `SelectCamera.AddKeepsCamera` | Application/Commands/SelectCameraCommand.cs:96-97 | an Add keeps every camera of the roster, so it never leaves the selection outside the roster |
| `SelectCamera.RemoveKeepsOthers` | Application/Commands/SelectCameraCommand.cs:96-97 | a Remove keeps every camera it does not remove |
| `SelectCamera.ReplaceKeepsOthers` | Application/Commands/SelectCameraCommand.cs:96-97 | a Replace keeps every camera it does not replace |
| `SelectCamera.MoveKeepsCamera` | Application/Commands/SelectCameraCommand.cs:96-97 | a Move keeps every camera of the roster, which is why not clearing the selection on a Move is safe |
| `SelectCamera.ResetKeepsStaleSelection` | Application/Commands/SelectCameraCommand.cs:96-97 | after a Reset the selection is kept although the roster is now empty |
| `SelectCamera.DeviceSubsAfter` | Application/Commands/SelectCameraCommand.cs:101-105 | the rename handlers after a collection change: without an old starting index nothing is detached, and with a new starting index every new camera holds one; `SubscriptionsFollowRoster` shows they then match the changed roster |
| `SelectCamera.AddFollows` | Application/Commands/SelectCameraCommand.cs:104-105 | an Add attaches one rename handler per inserted camera, matching the new roster |
| `SelectCamera.RemoveFollows` | Application/Commands/SelectCameraCommand.cs:101-102 | a Remove detaches one rename handler per removed camera, matching the new roster |
| `SelectCamera.ReplaceFollows` | Application/Commands/SelectCameraCommand.cs:101-105 | a Replace detaches from the replaced cameras and attaches to their replacements, matching the new roster |
| `SelectCamera.MoveFollows` | Application/Commands/SelectCameraCommand.cs:101-105 | a Move detaches from and reattaches to the moved camera, matching the reordered roster |
| `SelectCamera.SubscriptionsFollowRoster` | Application/Commands/SelectCameraCommand.cs:101-105 | when the rename handlers match the roster, every change other than Reset keeps them matched, one per camera occurrence |
| `SelectCamera.ResetLeavesSubscriptions` | Application/Commands/SelectCameraCommand.cs:101-105 | a Reset of a non-empty roster leaves every rename handler where it was, so they no longer match the empty roster |
| `SelectCamera.Rewired` | Application/Commands/SelectCameraCommand.cs:78-89 | the rename handlers after a roster replacement: every camera of the new roster holds one; `RewiredFollowsRoster` shows it is exactly one per occurrence |
| `SelectCamera.Moved` | Application/Commands/SelectCameraCommand.cs:78-89 | the handlers after the roster setter: the gamepad handler is untouched and the new collection holds the collection handler; `MovedAttachesToValue` and `MovedDetachesDropped` show they end on the new roster only |
| `SelectCamera.AfterChange` | Application/Commands/SelectCameraCommand.cs:101-105 | the handlers after a collection change: the gamepad handler and the collection handlers are untouched; `AfterChangeKeepsAttached` shows the rename handlers keep matching the roster |
| `SelectCamera.RewiredFollowsRoster` | Application/Commands/SelectCameraCommand.cs:78-89 | moving the rename handlers from one roster to another leaves exactly one per camera of the new roster, and none on an old camera that is not in it |
| `SelectCamera.MovedAttachesToValue` | Application/Commands/SelectCameraCommand.cs:78-89 | after the setter, both handlers sit on the new roster and on its cameras only, starting either from nothing or from the old roster, and the gamepad handler is untouched |
| `SelectCamera.MovedDetachesDropped` | Application/Commands/SelectCameraCommand.cs:78-89 | after the setter, a camera dropped from the roster has no rename handler and a replaced collection has no collection handler |
| `SelectCamera.AfterChangeKeepsAttached` | Application/Commands/SelectCameraCommand.cs:101-105 | while the handlers match the roster, any change other than Reset keeps them matched to the changed roster |
| `SelectCamera.ResetBreaksAttachment` | Application/Commands/SelectCameraCommand.cs:101-105 | a Reset of a non-empty roster changes no handler, so they no longer match the roster |
| `SelectCamera.AttachHandlers` | Application/Commands/SelectCameraCommand.cs:88-89 | the `+=` loop adds one rename handler per camera occurrence |
| `SelectCamera.DetachHandlers` | Application/Commands/SelectCameraCommand.cs:81-82 | the `-=` loop removes one rename handler per camera occurrence |
| `SelectCamera.Rewire` | Application/Commands/SelectCameraCommand.cs:78-89 | the setter's handler moves: off the current collection and its cameras when there is one, then onto the new collection and its cameras |
| `SelectCamera.ApplyChange` | Application/Commands/SelectCameraCommand.cs:101-105 | the rename handlers leave the old items when the old starting index is given, then join the new items when the new starting index is given |
| `SelectCamera.RosterOf` | Application/Commands/SelectCameraCommand.cs:22 | the gamepad's roster, or a fresh empty one when it has none |
| `SelectCamera.SelectCameraCommand.constructor` | Application/Commands/SelectCameraCommand.cs:19-26 | the command caches the gamepad's roster (a fresh empty one for none), attaches its handlers to the gamepad, the roster and each camera, raises one "Cameras" notice, and requests one broadcast exactly when the gamepad already has a selected camera whose Name is not null |
| `SelectCamera.SelectCameraCommand.NotifyClients` | Application/Commands/SelectCameraCommand.cs:38-69 | one envelope is appended to the broadcast log for a present name and none for an absent one; the roster, the handlers, the notices and the selected name stay as they were |
| `SelectCamera.SelectCameraCommand.SetCameras` | Application/Commands/SelectCameraCommand.cs:72-92 | a null roster is rejected with an argument-null error and nothing changes; any other roster is cached, the handlers move to it and its cameras, and a "Cameras" notice is raised |
| `SelectCamera.SelectCameraCommand.GamepadPropertyChanged` | Application/Commands/SelectCameraCommand.cs:28-36 | a "Cameras" change assigns the gamepad's roster through the setter (a fresh empty one for none); every other property, the selected camera included, changes nothing; handlers that matched the old roster match the new one |
| `SelectCamera.SelectCameraCommand.OnCamerasChanged` | Application/Commands/SelectCameraCommand.cs:94-109 | the selection becomes what `SelectionAfter` says, the rename handlers what `AfterChange` says, and the event is forwarded unchanged as a notice |
| `SelectCamera.SelectCameraCommand.OnDeviceChange` | Application/Commands/SelectCameraCommand.cs:111-115 | a "Name" change raises exactly one "Options" notice, and any other property raises nothing |
| `SelectCamera.SelectCameraCommand.Execute` | Application/Commands/SelectCameraCommand.cs:127-143 | an index inside the roster selects that camera, whose option it is, and appends its selection-changed envelope, on every call, unless the camera's Name is null; any other index fails with the out-of-range error carrying the count and the value, and changes neither the selection nor the broadcast log |
| `Collections.Insert` | Application/Commands/SelectCameraCommand.cs:94-109 | inserting an item grows the roster by one, puts the item at the index, and adds it to the multiset |
| `Collections.DescribedIsWellFormed` | Application/Commands/SelectCameraCommand.cs:101-105 | an event describing a real change gives its items whenever it gives an index, which is what the `!` dereferences rely on |
| `Collections.IndexOf` | Application/Services/WebSocketService.cs:25 | the index found holds the item, and no earlier index does |
| `Collections.RemoveFirstAbsent` | Application/Services/WebSocketService.cs:25 | removing an unregistered connection changes nothing |
| `Collections.RemoveFirst` | Application/Services/WebSocketService.cs:25 | `List<T>.Remove`: the registry loses at most one entry; `RemoveFirstSplit`, `RemoveFirstPresent` and `RemoveFirstMultiset` say which one and that the others keep their order |
| `Collections.RemoveFirstPresent` | Application/Services/WebSocketService.cs:25 | removing a registered connection drops it at its first index and keeps everything before and after it in order |
| `Collections.RemoveFirstSplit` | Application/Services/WebSocketService.cs:25 | removal takes out the first occurrence only, and the rest of the registry keeps its order |
| `Collections.RemoveFirstMultiset` | Application/Services/WebSocketService.cs:25 | removal takes away exactly one occurrence when there is one, and nothing else |
| `Collections.RemoveAppended` | Application/Services/WebSocketService.cs:16-25 | registering a new connection and then deregistering it gives back the registry as it was |
| `WebSockets.SessionResult` | Application/Services/WebSocketService.cs:18-23 | where the receive loop ends: it is still waiting only when every receive so far was a data frame; `SessionResultCases` gives the converse and where it ends otherwise |
| `WebSockets.SessionResultCases` | Application/Services/WebSocketService.cs:18-23 | the receive loop keeps waiting exactly while it sees data frames; it ends at the first receive with a close status or the first receive that throws |
| `WebSockets.OpenSockets` | Application/Services/WebSocketService.cs:32-34 | there are never more broadcast targets than registered sockets; which sockets they are is stated by `OpenSocketsMembers` |
| `WebSockets.OpenSocketsMembers` | Application/Services/WebSocketService.cs:32-34 | a socket is a broadcast target exactly when it is registered and reports Open |
| `WebSockets.OpenSocketsAppend` | Application/Services/WebSocketService.cs:32-34 | the open sockets of two registry pieces come in registry order, piece by piece |
| `WebSockets.WebSocketHandler.constructor` | Application/Services/WebSocketService.cs:12 | the registry starts empty |
| `WebSockets.WebSocketHandler.Accept` | Application/Services/WebSocketService.cs:16-18 | the connection is appended to the registry before its first receive |
| `WebSockets.WebSocketHandler.OnReceive` | Application/Services/WebSocketService.cs:18-26 | a close status deregisters the connection and closes it with that status and description; a throwing receive ends the loop with the connection still registered; any other receive changes nothing |
| `WebSockets.WebSocketHandler.HandleWebSocket` | Application/Services/WebSocketService.cs:14-27 | the connection is registered and stays registered through every data frame; at the first close status it is removed (only that entry) and closed with that status; a throwing receive leaves it registered |
| `WebSockets.WebSocketHandler.NotifyClients` | Application/Services/WebSocketService.cs:29-39 | the frames sent go, in registry order, to the open sockets only, each carrying the UTF-8 bytes of the message as one final text frame; the broadcast succeeds exactly when every open socket got one, and otherwise stops at the first open socket whose send throws and reports it |
| `Commands.CommandOrderFacts` | Application/Services/CommandsService.cs:18-30 | the list has ten commands, each class once and none twice, and the camera-select command is ninth and nowhere else |
| `Commands.CommandsService.constructor` | Application/Services/CommandsService.cs:12-15 | the factory keeps the registry it is given |
| `Commands.CommandsService.GetCommandsForGamepad` | Application/Services/CommandsService.cs:16-31 | the list follows the fixed order and every command is bound to the gamepad. Index 8 is a new camera-select command holding the factory's registry, attached to its roster, and it has made its own initial broadcast request |

## Left out

- Async/await and concurrency. Each operation is one atomic sequential step. Concurrent receive loops racing with a broadcast over the shared list are not modelled.
- The network and the 4 KiB receive buffer. Socket states, failing sends and delivered receives are inputs. Sends are returned as frames and close handshakes are logged.
- JSON serialisation (Application/Services/WebSocketMessageFormatter.cs) is not part of this model. The broadcast log records envelopes, and the command's call into the registry with the serialised text is not modelled.
- `Console.WriteLine` logging, and the catch block that only logs a broadcast failure.
- Process start-up and hosting (Gui/Program.cs) are not part of this model.
- The bodies of the other nine command classes. They are known by class and gamepad only.
- The `ViscaIpDevice` cast in the handler loops. Every camera is assumed to be one, so the cast never throws.
- `CommandName`, `AxisParameterName` and `ButtonParameterName` are constants of the class ("Select camera", "Camera", "Camera"), with no contract of their own.
- Re-entrant notifications. The gamepad raises PropertyChanged when `Execute` or `OnCamerasChanged` writes its selection. The command's handler ignores every property but "Cameras", so that call is not modelled.
- Null event arguments. Both handlers dereference their event argument, so a null one throws a NullReferenceException (lines 96 and 113). The model's event arguments are never null: `None` for `OnDeviceChange` stands for a null `PropertyName` only.
- Integer formatting uses the invariant culture's "-" sign. String interpolation uses the current culture, whose negative sign may be another character (U+2212 in some cultures).
- `Utf8.Encode`: Dafny characters are Unicode scalar values, so the lone surrogates a .NET string may hold are not modelled. .NET replaces each one with U+FFFD.
- `SelectCamera.SelectCameraCommand.Options`: the source returns a lazy `Select`, which reads names when it is enumerated. The model reads them when `Options` is called.
- `WebSockets.WebSocketHandler.NotifyClients`: "the failure propagates" is modelled as the returned `Fail`. A .NET exception also carries a stack and an inner error, which are not modelled.

/**
  The command factory: the fixed, ordered list of commands a gamepad is
  given, each bound to that gamepad, with the camera-select command wired
  to the connection registry the factory was built with.
 */
module Commands {
  import opened Devices
  import SC = SelectCamera
  import WebSockets

  /** The command classes the factory instantiates, one constructor per class. */
  datatype CommandKind =
    | Pan | Tilt | Zoom | FocusMove | FocusMode | FocusLock
    | Preset | PresetRecallSpeed | SelectCamera | Power

  /**
    A constructed command. The camera-select command is an object of this
    model; the other commands are known only by their class and gamepad,
    since their bodies are outside it.
   */
  datatype Command =
    | Bound(kind: CommandKind, gamepad: Gamepad)
    | CameraSelect(command: SC.SelectCameraCommand)

  function KindOf(c: Command): CommandKind {
    if c.Bound? then c.kind else SelectCamera
  }

  function GamepadOf(c: Command): Gamepad {
    if c.Bound? then c.gamepad else c.command.gamepad
  }

  /** The order of the array literal the factory returns. */
  const CommandOrder: seq<CommandKind> :=
    [Pan, Tilt, Zoom, FocusMove, FocusMode, FocusLock, Preset, PresetRecallSpeed, SelectCamera, Power]

  /** Ten commands, every class once and none twice, the camera-select command ninth and only there. */
  lemma CommandOrderFacts()
    ensures |CommandOrder| == 10
    ensures forall i, j :: 0 <= i < j < |CommandOrder| ==> CommandOrder[i] != CommandOrder[j]
    ensures forall k: CommandKind :: k in CommandOrder
    ensures forall i :: 0 <= i < |CommandOrder| ==> (CommandOrder[i] == SelectCamera <==> i == 8)
  {
    forall k: CommandKind ensures k in CommandOrder {
      var i := match k
        case Pan => 0 case Tilt => 1 case Zoom => 2 case FocusMove => 3 case FocusMode => 4
        case FocusLock => 5 case Preset => 6 case PresetRecallSpeed => 7 case SelectCamera => 8 case Power => 9;
      assert CommandOrder[i] == k;
    }
  }

  class CommandsService {
    const handler: WebSockets.WebSocketHandler

    constructor (handler: WebSockets.WebSocketHandler)
      ensures this.handler == handler
    {
      this.handler := handler;
    }

    /**
      Builds a fresh command list for `gamepad`: every command is bound to
      it, they come in CommandOrder, and the ninth is a new camera-select
      command wired to this factory's handler, which has already made its
      own initial broadcast request.
     */
    method GetCommandsForGamepad(gamepad: Gamepad) returns (commands: seq<Command>)
      ensures |commands| == |CommandOrder|
      ensures forall i :: 0 <= i < |commands| ==>
        KindOf(commands[i]) == CommandOrder[i] && GamepadOf(commands[i]) == gamepad
      ensures forall i :: 0 <= i < |commands| ==> (commands[i].CameraSelect? <==> i == 8)
      ensures commands[8].CameraSelect?
      ensures var select := commands[8].command;
        && fresh(select) && select.handler == handler
        && select.Valid() && select.Synced()
        && select.broadcasts == SC.BroadcastFor(SC.SelectedName(gamepad.selectedCamera))
    {
      var select := new SC.SelectCameraCommand(gamepad, handler);
      commands := [
        Bound(Pan, gamepad),
        Bound(Tilt, gamepad),
        Bound(Zoom, gamepad),
        Bound(FocusMove, gamepad),
        Bound(FocusMode, gamepad),
        Bound(FocusLock, gamepad),
        Bound(Preset, gamepad),
        Bound(PresetRecallSpeed, gamepad),
        CameraSelect(select),
        Bound(Power, gamepad)
      ];
    }
  }
}

/** `GamepadControllerAutoload`: the controller-name classification, the current
    controller fields and the connect/disconnect notifications. Engine input calls
    (`Input.GetJoyGuid`, `Input.GetJoyName`, `Input.GetConnectedJoypads`) become
    parameters; vibration requests and raised events are recorded in logs. */
module GamepadController {
  import opened Common
  import opened Text

  const DEVICE_GENERIC: string := "generic"
  const DEVICE_KEYBOARD: string := "keyboard"
  const DEVICE_XBOX_CONTROLLER: string := "xbox"
  const DEVICE_SWITCH_CONTROLLER: string := "switch"
  const DEVICE_SWITCH_JOYCON_LEFT_CONTROLLER: string := "switch_left_joycon"
  const DEVICE_SWITCH_JOYCON_RIGHT_CONTROLLER: string := "switch_right_joycon"
  const DEVICE_PLAYSTATION_CONTROLLER: string := "playstation"
  const DEVICE_LUNA_CONTROLLER: string := "luna"

  /** Every category `UpdateCurrentController` can store. */
  const CATEGORIES: set<string> := {
    DEVICE_GENERIC, DEVICE_KEYBOARD, DEVICE_XBOX_CONTROLLER, DEVICE_SWITCH_CONTROLLER,
    DEVICE_SWITCH_JOYCON_LEFT_CONTROLLER, DEVICE_SWITCH_JOYCON_RIGHT_CONTROLLER,
    DEVICE_PLAYSTATION_CONTROLLER, DEVICE_LUNA_CONTROLLER
  }

  /** The joypad names the classification recognises. */
  const KNOWN_CONTROLLER_NAMES: set<string> := {
    "Luna Controller",
    "XInput Gamepad", "Xbox Series Controller", "Xbox 360 Controller", "Xbox One Controller",
    "Sony DualSense", "Nacon Revolution Unlimited Pro Controller", "PS3 Controller",
    "PS4 Controller", "PS5 Controller",
    "Steam Virtual Gamepad",
    "Switch", "Switch Controller", "Nintendo Switch Pro Controller",
    "Faceoff Deluxe Wired Pro Controller for Nintendo Switch",
    "Joy-Con (L)", "Joy-Con (R)"
  }

  /** The `controllerName switch` of `UpdateCurrentController`. */
  function ControllerCategory(controllerName: string): (r: string)
    ensures r in CATEGORIES
    ensures controllerName !in KNOWN_CONTROLLER_NAMES ==> r == DEVICE_KEYBOARD
    ensures controllerName in KNOWN_CONTROLLER_NAMES ==> r != DEVICE_KEYBOARD
    ensures r == DEVICE_SWITCH_JOYCON_LEFT_CONTROLLER <==> controllerName == "Joy-Con (L)"
    ensures r == DEVICE_SWITCH_JOYCON_RIGHT_CONTROLLER <==> controllerName == "Joy-Con (R)"
  {
    match controllerName
    case "Luna Controller" => DEVICE_LUNA_CONTROLLER
    case "XInput Gamepad" => DEVICE_XBOX_CONTROLLER
    case "Xbox Series Controller" => DEVICE_XBOX_CONTROLLER
    case "Xbox 360 Controller" => DEVICE_XBOX_CONTROLLER
    case "Xbox One Controller" => DEVICE_XBOX_CONTROLLER
    case "Sony DualSense" => DEVICE_PLAYSTATION_CONTROLLER
    case "Nacon Revolution Unlimited Pro Controller" => DEVICE_PLAYSTATION_CONTROLLER
    case "PS3 Controller" => DEVICE_PLAYSTATION_CONTROLLER
    case "PS4 Controller" => DEVICE_PLAYSTATION_CONTROLLER
    case "PS5 Controller" => DEVICE_PLAYSTATION_CONTROLLER
    case "Steam Virtual Gamepad" => DEVICE_GENERIC
    case "Switch" => DEVICE_SWITCH_CONTROLLER
    case "Switch Controller" => DEVICE_SWITCH_CONTROLLER
    case "Nintendo Switch Pro Controller" => DEVICE_SWITCH_CONTROLLER
    case "Faceoff Deluxe Wired Pro Controller for Nintendo Switch" => DEVICE_SWITCH_CONTROLLER
    case "Joy-Con (L)" => DEVICE_SWITCH_JOYCON_LEFT_CONTROLLER
    case "Joy-Con (R)" => DEVICE_SWITCH_JOYCON_RIGHT_CONTROLLER
    case _ => DEVICE_KEYBOARD
  }

  /** A case-insensitive comparison of a stored name with a category. */
  predicate NameIs(name: string, category: string) {
    EqualsIgnoreCase(name, category)
  }

  /** Two category constants never compare equal ignoring case. */
  lemma {:induction false} CategoriesDifferIgnoringCase(a: string, b: string)
    requires a in CATEGORIES && b in CATEGORIES && a != b
    ensures ToLower(a) != ToLower(b)
  {
    if |a| == |b| {
      // "xbox" and "luna" are the only two of equal length; they differ in front
      assert {a, b} == {DEVICE_XBOX_CONTROLLER, DEVICE_LUNA_CONTROLLER};
      assert ToLower(a)[0] == LowerChar(a[0]) && ToLower(b)[0] == LowerChar(b[0]);
    }
  }

  /** At most one category predicate holds for any stored name. */
  lemma AtMostOneCategory(name: string, a: string, b: string)
    requires a in CATEGORIES && b in CATEGORIES && a != b
    ensures !(NameIs(name, a) && NameIs(name, b))
  {
    CategoriesDifferIgnoringCase(a, b);
  }

  /** A category compares equal to itself and to no other category. */
  lemma CategoryPredicatesAfterUpdate(controllerName: string, c: string)
    requires c in CATEGORIES
    ensures NameIs(ControllerCategory(controllerName), c) <==> c == ControllerCategory(controllerName)
  {
    var r := ControllerCategory(controllerName);
    if c != r {
      CategoriesDifferIgnoringCase(c, r);
    }
  }

  datatype ControllerEvent =
    | ControllerConnected(device: int, controllerName: string)
    | ControllerDisconnected(device: int, previousControllerName: string, controllerName: string)

  datatype VibrationRequest =
    | StartJoyVibration(device: int, weakStrength: real, strongStrength: real, duration: real)
    | StopJoyVibration(device: int)

  class GamepadControllerAutoload {
    var currentControllerGuid: string
    var currentControllerName: string
    var currentDeviceId: int
    var connected: bool
    /** Events raised, oldest first. */
    var events: seq<ControllerEvent>
    /** Requests handed to the engine's vibration API, oldest first. */
    var vibrations: seq<VibrationRequest>

    /** The field initialisers: keyboard, device 0, no GUID, not connected. */
    constructor()
      ensures currentControllerGuid == "" && currentControllerName == DEVICE_KEYBOARD
      ensures currentDeviceId == 0 && !connected
      ensures events == [] && vibrations == []
    {
      currentControllerGuid := "";
      currentControllerName := DEVICE_KEYBOARD;
      currentDeviceId := 0;
      connected := false;
      events := [];
      vibrations := [];
    }

    predicate CurrentControllerIsKeyboard()
      reads this
    {
      NameIs(currentControllerName, DEVICE_KEYBOARD)
    }

    predicate CurrentControllerIsGeneric()
      reads this
    {
      NameIs(currentControllerName, DEVICE_GENERIC)
    }

    predicate CurrentControllerIsLuna()
      reads this
    {
      NameIs(currentControllerName, DEVICE_LUNA_CONTROLLER)
    }

    predicate CurrentControllerIsPlaystation()
      reads this
    {
      NameIs(currentControllerName, DEVICE_PLAYSTATION_CONTROLLER)
    }

    predicate CurrentControllerIsXbox()
      reads this
    {
      NameIs(currentControllerName, DEVICE_XBOX_CONTROLLER)
    }

    predicate CurrentControllerIsSwitch()
      reads this
    {
      NameIs(currentControllerName, DEVICE_SWITCH_CONTROLLER)
    }

    predicate CurrentControllerIsSwitchJoyconLeft()
      reads this
    {
      NameIs(currentControllerName, DEVICE_SWITCH_JOYCON_LEFT_CONTROLLER)
    }

    predicate CurrentControllerIsSwitchJoyconRight()
      reads this
    {
      NameIs(currentControllerName, DEVICE_SWITCH_JOYCON_RIGHT_CONTROLLER)
    }

    predicate CurrentControllerIsSwitchJoycon()
      reads this
    {
      CurrentControllerIsSwitchJoyconRight() || CurrentControllerIsSwitchJoyconLeft()
    }

    /** `UpdateCurrentController`; `guid` is what the engine reports for `device`. */
    method UpdateCurrentController(device: int, controllerName: string, guid: string)
      modifies this
      ensures currentControllerGuid == guid && currentDeviceId == device
      ensures currentControllerName == ControllerCategory(controllerName)
      ensures connected == old(connected) && events == old(events) && vibrations == old(vibrations)
    {
      currentControllerGuid := guid;
      currentDeviceId := device;
      currentControllerName := ControllerCategory(controllerName);
    }

    /** `OnJoyConnectionChanged`: the 64-bit device id is cast to `int`, a disconnect
        classifies the empty name, and the event reports the category before and after.
        `joyName` and `guid` are what the engine reports for the device. */
    method OnJoyConnectionChanged(device: int, isConnected: bool, joyName: string, guid: string)
      modifies this
      ensures currentDeviceId == Wrap32(device) && currentControllerGuid == guid
      ensures currentControllerName == ControllerCategory(if isConnected then joyName else "")
      ensures !isConnected ==> currentControllerName == DEVICE_KEYBOARD
      ensures events == old(events) + [
        if isConnected then ControllerConnected(device, currentControllerName)
        else ControllerDisconnected(device, old(currentControllerName), currentControllerName)]
      ensures connected == old(connected) && vibrations == old(vibrations)
    {
      var previousControllerName := currentControllerName;
      UpdateCurrentController(Wrap32(device), if isConnected then joyName else "", guid);
      if isConnected {
        events := events + [ControllerConnected(device, currentControllerName)];
      } else {
        events := events + [ControllerDisconnected(device, previousControllerName, currentControllerName)];
      }
    }

    /** `StartControllerVibration`; `joypadCount` is the number of connected joypads. */
    method StartControllerVibration(joypadCount: nat, weakStrength: real, strongStrength: real, duration: real)
      modifies this
      ensures vibrations == old(vibrations) + (
        if !old(CurrentControllerIsKeyboard()) && joypadCount > 0
        then [StartJoyVibration(currentDeviceId, weakStrength, strongStrength, duration)]
        else [])
      ensures currentControllerName == old(currentControllerName) && currentDeviceId == old(currentDeviceId)
      ensures currentControllerGuid == old(currentControllerGuid) && connected == old(connected)
      ensures events == old(events)
    {
      if !CurrentControllerIsKeyboard() && joypadCount > 0 {
        vibrations := vibrations + [StartJoyVibration(currentDeviceId, weakStrength, strongStrength, duration)];
      }
    }

    /** `StopControllerVibration`: the strengths and duration it takes are unused. */
    method StopControllerVibration(joypadCount: nat)
      modifies this
      ensures vibrations == old(vibrations) + (
        if !old(CurrentControllerIsKeyboard()) && joypadCount > 0
        then [StopJoyVibration(currentDeviceId)]
        else [])
      ensures currentControllerName == old(currentControllerName) && currentDeviceId == old(currentDeviceId)
      ensures currentControllerGuid == old(currentControllerGuid) && connected == old(connected)
      ensures events == old(events)
    {
      if !CurrentControllerIsKeyboard() && joypadCount > 0 {
        vibrations := vibrations + [StopJoyVibration(currentDeviceId)];
      }
    }
  }

  /** After a disconnect no vibration request reaches the engine until a controller
      connects again. */
  method DisconnectSilencesVibration(pad: GamepadControllerAutoload, device: int, joyName: string,
                                    guid: string, joypadCount: nat)
    modifies pad
    ensures pad.vibrations == old(pad.vibrations)
  {
    pad.OnJoyConnectionChanged(device, false, joyName, guid);
    assert pad.currentControllerName == DEVICE_KEYBOARD;
    assert pad.CurrentControllerIsKeyboard();
    pad.StartControllerVibration(joypadCount, 0.5, 0.5, 0.65);
    pad.StopControllerVibration(joypadCount);
  }

  /** The joy-con predicate holds exactly for the two joy-con categories. */
  lemma JoyconCategories(controllerName: string)
    ensures NameIs(ControllerCategory(controllerName), DEVICE_SWITCH_JOYCON_LEFT_CONTROLLER)
            || NameIs(ControllerCategory(controllerName), DEVICE_SWITCH_JOYCON_RIGHT_CONTROLLER)
            <==> controllerName == "Joy-Con (L)" || controllerName == "Joy-Con (R)"
  {
    CategoryPredicatesAfterUpdate(controllerName, DEVICE_SWITCH_JOYCON_LEFT_CONTROLLER);
    CategoryPredicatesAfterUpdate(controllerName, DEVICE_SWITCH_JOYCON_RIGHT_CONTROLLER);
  }
}

/**
 * Home-automation commands: the lookup of the command configured for a
 * camera event, and the resolution of reserved command words. The HTTP
 * request and the task that sends it are outside the model; `Process`
 * returns the command that would be sent.
 */
module Automation {
  import opened Wrappers
  import opened Text
  import opened Utils
  import opened AppConfig
  import opened SqlHelper

  /** `_TimeStamp`: the reserved word replaced by the current time. */
  const TimeStamp: string := "|TimeStamp|"

  /** A command word written between two '|'. */
  predicate IsReserved(command: string) {
    StartsWith(command, "|") && EndsWith(command, "|")
  }

  /**
   * `GetItemCommand`: the command text sent to the item; `now` is the text
   * of `DateTime.Now`. What is sent is the command itself, the time or
   * nothing; only a reserved word is ever replaced, and `|TimeStamp|`
   * always by the time.
   */
  function GetItemCommand(command: AutomationCommand, now: string): (r: string)
    ensures r == command.Command || r == now || r == ""
    ensures r != command.Command ==> IsReserved(command.Command)
    ensures command.Command == TimeStamp ==> r == now
  {
    var itemCommand := command.Command;
    if !StartsWith(itemCommand, "|") || !EndsWith(itemCommand, "|") then itemCommand
    else if itemCommand == TimeStamp then now
    else ""
  }

  /** `Process`: the command configured for the event's address and type, if any. */
  function Process(actions: map<string, AutomationCommand>, cameraEvent: EventRecord): Option<AutomationCommand> {
    var key := GenerateKey(cameraEvent.IpAddress, cameraEvent.EventType);
    if key in actions then Some(actions[key]) else Option.None
  }

  /**
   * Every command whose first and last characters are '|', a lone '|'
   * included, is a reserved word, and every one but `|TimeStamp|` is sent
   * as the empty text.
   */
  lemma ReservedWordsAreEmpty(command: AutomationCommand, now: string)
    requires |command.Command| > 0 && command.Command[0] == '|' && command.Command[|command.Command| - 1] == '|'
    requires command.Command != TimeStamp
    ensures IsReserved(command.Command) && GetItemCommand(command, now) == ""
  {
    var c := command.Command;
    assert c[..1] == "|";
    assert c[|c| - 1..] == "|";
  }

  /**
   * Resolution leaves no reserved word behind when the time text is not one,
   * so resolving twice is resolving once.
   */
  lemma ItemCommandIdempotent(command: AutomationCommand, now: string)
    requires !IsReserved(now)
    ensures !IsReserved(GetItemCommand(command, now))
    ensures GetItemCommand(command.(Command := GetItemCommand(command, now)), now) == GetItemCommand(command, now)
  {
    var r := GetItemCommand(command, now);
    if r == "" {
      assert !StartsWith(r, "|");
    }
  }

  /**
   * Against a command table built from `commands`, an event finds a command
   * exactly when some command's key is the event's key, and then it is that
   * command.
   */
  lemma ProcessFindsConfiguredCommand(commands: seq<AutomationCommand>, cameraEvent: EventRecord)
    requires GetAutomationActions(commands).Some?
    ensures var found := Process(GetAutomationActions(commands).value, cameraEvent);
      && (found.Some? <==> exists i | 0 <= i < |commands| ::
            CommandKey(commands[i]) == GenerateKey(cameraEvent.IpAddress, cameraEvent.EventType))
      && (found.Some? ==>
            found.value in commands
            && CommandKey(found.value) == GenerateKey(cameraEvent.IpAddress, cameraEvent.EventType))
  {
    GetAutomationActionsContents(commands);
    var m := GetAutomationActions(commands).value;
    var key := GenerateKey(cameraEvent.IpAddress, cameraEvent.EventType);
    if key in m {
      var i :| 0 <= i < |commands| && CommandKey(commands[i]) == key;
      assert m[key] == commands[i];
    }
  }

  /** A command whose device and event are the event's address and type is the one found. */
  lemma ProcessFindsDeviceCommand(commands: seq<AutomationCommand>, cameraEvent: EventRecord, i: int)
    requires GetAutomationActions(commands).Some?
    requires 0 <= i < |commands|
    requires commands[i].Device == cameraEvent.IpAddress && commands[i].Event == cameraEvent.EventType
    ensures Process(GetAutomationActions(commands).value, cameraEvent) == Some(commands[i])
  {
    GetAutomationActionsContents(commands);
  }
}

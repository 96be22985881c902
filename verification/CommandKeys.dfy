/** The string key under which the scheduler remembers a command it sent:
    the device id, the action and the JSON text of the parameters. */
module CommandKeys {

  /** The three commands a scheduler tick can ask for. */
  datatype Intent = Charge | Discharge | Shed

  function Action(intent: Intent): string
  {
    match intent
    case Charge => "set_mode"
    case Discharge => "set_mode"
    case Shed => "set_relay"
  }

  /** The JSON text of the parameter map that goes with the intent. */
  function Params(intent: Intent): string
  {
    match intent
    case Charge => "{\"mode\":\"charging\"}"
    case Discharge => "{\"mode\":\"discharging\"}"
    case Shed => "{\"on\":false}"
  }

  function Suffix(intent: Intent): string
  {
    ":" + Action(intent) + ":" + Params(intent)
  }

  function CommandKey(deviceID: string, intent: Intent): string
  {
    deviceID + Suffix(intent)
  }

  /** The character `back` places from the end depends on the last part alone. */
  lemma TailOfConcat(front: string, last: string, back: nat)
    requires 1 <= back <= |last|
    ensures (front + last)[|front + last| - back] == last[|last| - back]
    ensures front == (front + last)[..|front + last| - |last|]
  {
  }

  /** The parameter texts differ two or eleven places from the end. */
  lemma ParamsTails(intent: Intent)
    ensures var s := Params(intent);
            && |s| >= 12
            && s[|s| - 2] == (if intent.Shed? then 'e' else '"')
            && s[|s| - 11] == (if intent.Discharge? then 's' else '"')
  {
  }

  lemma SuffixTails(intent: Intent)
    ensures var s := Suffix(intent);
            && |s| >= 12
            && s[|s| - 2] == (if intent.Shed? then 'e' else '"')
            && s[|s| - 11] == (if intent.Discharge? then 's' else '"')
  {
    ParamsTails(intent);
    hide Action, Params;
    var front := ":" + Action(intent) + ":";
    TailOfConcat(front, Params(intent), 2);
    TailOfConcat(front, Params(intent), 11);
  }

  lemma KeyTails(deviceID: string, intent: Intent)
    ensures var s := CommandKey(deviceID, intent);
            && |s| >= 12
            && s[|s| - 2] == (if intent.Shed? then 'e' else '"')
            && s[|s| - 11] == (if intent.Discharge? then 's' else '"')
            && deviceID == s[..|s| - |Suffix(intent)|]
  {
    SuffixTails(intent);
    hide Suffix;
    TailOfConcat(deviceID, Suffix(intent), 2);
    TailOfConcat(deviceID, Suffix(intent), 11);
  }

  /** The keys in full: they name the action and the parameters each intent stands for. */
  lemma KeyTexts(deviceID: string)
    ensures CommandKey(deviceID, Charge) == deviceID + (":" + "set_mode" + ":" + "{\"mode\":\"charging\"}")
    ensures CommandKey(deviceID, Discharge) == deviceID + (":" + "set_mode" + ":" + "{\"mode\":\"discharging\"}")
    ensures CommandKey(deviceID, Shed) == deviceID + (":" + "set_relay" + ":" + "{\"on\":false}")
  {
  }

  /** No two different requests share a key, whatever characters the device ids hold. */
  lemma CommandKeyInjective(d1: string, i1: Intent, d2: string, i2: Intent)
    ensures CommandKey(d1, i1) == CommandKey(d2, i2) <==> d1 == d2 && i1 == i2
  {
    if CommandKey(d1, i1) == CommandKey(d2, i2) {
      KeyTails(d1, i1);
      KeyTails(d2, i2);
      assert i1 == i2;
    }
  }
}

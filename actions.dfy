/**
 * The macro actions that a macro line holds, and the tag strings under which
 * a saved macro file records each kind of action.
 */
module Actions {
  import opened Wrappers

  /** A key as resolved by the keyboard's keycode table; the macro editor never looks inside one. */
  type Keycode(==, !new)

  /** One step of a macro. Key actions carry the list of keys they act on. */
  datatype Action =
    | Down(keys: seq<Keycode>)
    | Up(keys: seq<Keycode>)
    | Tap(keys: seq<Keycode>)
    | Text(text: string)
    | Delay(ms: nat)

  /** The action classes a tag selects when a macro file is loaded. */
  datatype Kind = KindDown | KindUp | KindTap | KindText | KindDelay

  function KindOf(a: Action): Kind
  {
    match a
    case Down(_) => KindDown
    case Up(_) => KindUp
    case Tap(_) => KindTap
    case Text(_) => KindText
    case Delay(_) => KindDelay
  }

  /** The tag string a saved record of this kind starts with. */
  function TagOf(k: Kind): string
  {
    match k
    case KindDown => "down"
    case KindUp => "up"
    case KindTap => "tap"
    case KindText => "text"
    case KindDelay => "delay"
  }

  /**
   * The tag-to-class table consulted on load: exactly the five tags are known,
   * and each selects the kind whose tag it is.
   */
  function KindOfTag(tag: string): (r: Option<Kind>)
    ensures forall k :: r == Some(k) <==> TagOf(k) == tag
  {
    if tag == "down" then Some(KindDown)
    else if tag == "up" then Some(KindUp)
    else if tag == "tap" then Some(KindTap)
    else if tag == "text" then Some(KindText)
    else if tag == "delay" then Some(KindDelay)
    else None
  }
}

/**
 The values exchanged by the chat relay: transcript messages, inbound frames
 (already parsed from JSON) and outbound frames, plus the session identity
 derived from a display name and a random suffix.
 */
module ChatTypes {

  datatype Option<T> = None | Some(value: T)

  /** A connection handle (one accepted WebSocket). */
  type ConnId = nat

  /** A transcript entry: the `Message` record with its four fields. */
  datatype Message = Message(messageId: int, username: string, timestamp: string, content: string)

  /** What the server writes to a connection. */
  datatype Frame =
    | Text(text: string)                           // plain text, not JSON
    | Chat(msg: Message)                           // a serialized `Message`
    | Notice(content: string, timestamp: string)   // a system event, sent with username "system"

  /**
   An inbound frame after JSON decoding. A JSON object is classified only by
   whether it has a "username" key; one without it may or may not carry
   "content". `Unparseable` stands for data that is not a JSON object.
   */
  datatype Inbound =
    | JoinFrame(name: string)
    | SendFrame(content: Option<string>)
    | Unparseable

  /** The username carried by system notices. */
  const SystemUser: string := "system"

  predicate IsLowerHex(ch: char)
  {
    '0' <= ch <= '9' || 'a' <= ch <= 'f'
  }

  /** The shape of `uuid4().hex[:6]`: six lower-case hexadecimal digits. */
  predicate IsHexSuffix(s: string)
  {
    |s| == 6 && forall i :: 0 <= i < |s| ==> IsLowerHex(s[i])
  }

  /** Recovers display name and suffix from an identity (the suffix is the last six characters). */
  function SplitIdentity(identity: string): (string, string)
    requires |identity| >= 7
  {
    (identity[..|identity| - 7], identity[|identity| - 6..])
  }

  /**
   The session identity `name#suffix`. It determines both of its parts and can
   never be mistaken for the system user.
   */
  function Identity(name: string, suffix: string): (r: string)
    requires IsHexSuffix(suffix)
    ensures |r| >= 7 && r[|r| - 7] == '#'
    ensures SplitIdentity(r) == (name, suffix)
    ensures r != SystemUser
  {
    var r := name + "#" + suffix;
    assert r[..|name|] == name && r[|name| + 1..] == suffix;
    r
  }

  /** Equal identities come from the same display name and the same suffix. */
  lemma IdentityInjective(n1: string, s1: string, n2: string, s2: string)
    requires IsHexSuffix(s1) && IsHexSuffix(s2)
    requires Identity(n1, s1) == Identity(n2, s2)
    ensures n1 == n2 && s1 == s2
  {
  }

  /** The private confirmation sent to a joining connection. */
  function ConnectedText(identity: string): string
  {
    "Connected as " + identity
  }

  /** The system notice broadcast when `identity` joins. */
  function JoinNotice(identity: string, timestamp: string): Frame
  {
    Notice(identity + " joined the chat", timestamp)
  }

  /** The system notice broadcast when `identity` leaves. */
  function LeftNotice(identity: string, timestamp: string): Frame
  {
    Notice(identity + " left the chat", timestamp)
  }
}

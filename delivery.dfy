/**
 * DeliveryNotificationCode: the single-letter delivery status a carrier
 * reports for a message, its classification (Status) and its description
 * (String).
 */
module Delivery {

  const Intermediate := "intermediate"
  const Final := "final"
  const Unknown := "unknown"

  const IntermediateCodes: set<string> := {"q", "r", "a", "b", "s"}
  const FinalCodes: set<string> := {"d", "f", "e", "j", "u"}

  /** The codes that have a description of their own; "u" is not one of them. */
  const DescribedCodes: set<string> := {"q", "r", "a", "b", "d", "f", "e", "j", "s"}

  const UnknownDescription := "The status is unknown."

  /** Status(): which stage of delivery a code denotes. */
  function Status(d: string): (r: string)
    ensures r in {Intermediate, Final, Unknown}
    ensures r == Intermediate <==> d in IntermediateCodes
    ensures r == Final <==> d in FinalCodes
  {
    match d
    case "q" | "r" | "a" | "b" | "s" => Intermediate
    case "d" | "f" | "e" | "j" | "u" => Final
    case _ => Unknown
  }

  /** String(): the sentence describing a code. */
  function Description(d: string): (r: string)
    ensures r == UnknownDescription <==> d !in DescribedCodes
  {
    match d
    case "q" => "The message is queued on the TextMagic server."
    case "r" => "The message has been sent to the mobile operator."
    case "a" => "The mobile operator has acknowledged the message."
    case "b" => "The mobile operator has queued the message."
    case "d" => "The message has been successfully delivered to the handset."
    case "f" => "An error occurred while delivering message."
    case "e" => "An error occurred while sending message."
    case "j" => "The mobile operator has rejected the message."
    case "s" => "This message is scheduled to be sent later."
    case _ => UnknownDescription
  }

  /** The two classes are disjoint, so every code has exactly one classification. */
  lemma ClassesDisjoint()
    ensures IntermediateCodes * FinalCodes == {}
  {
  }

  /** The code a description sentence belongs to, read back from the sentence. */
  function CodeOf(description: string): string
  {
    match description
    case "The message is queued on the TextMagic server." => "q"
    case "The message has been sent to the mobile operator." => "r"
    case "The mobile operator has acknowledged the message." => "a"
    case "The mobile operator has queued the message." => "b"
    case "The message has been successfully delivered to the handset." => "d"
    case "An error occurred while delivering message." => "f"
    case "An error occurred while sending message." => "e"
    case "The mobile operator has rejected the message." => "j"
    case "This message is scheduled to be sent later." => "s"
    case _ => ""
  }

  /** Every described code can be read back from its sentence. */
  lemma DescriptionInverse(d: string)
    requires d in DescribedCodes
    ensures CodeOf(Description(d)) == d
  {
    match d
    case "q" => assert CodeOf("The message is queued on the TextMagic server.") == "q";
    case "r" => assert CodeOf("The message has been sent to the mobile operator.") == "r";
    case "a" => assert CodeOf("The mobile operator has acknowledged the message.") == "a";
    case "b" => assert CodeOf("The mobile operator has queued the message.") == "b";
    case "d" => assert CodeOf("The message has been successfully delivered to the handset.") == "d";
    case "f" => assert CodeOf("An error occurred while delivering message.") == "f";
    case "e" => assert CodeOf("An error occurred while sending message.") == "e";
    case "j" => assert CodeOf("The mobile operator has rejected the message.") == "j";
    case "s" => assert CodeOf("This message is scheduled to be sent later.") == "s";
  }

  /** Distinct described codes get distinct sentences, so a description names its code. */
  lemma DescriptionInjective(d1: string, d2: string)
    requires Description(d1) == Description(d2) != UnknownDescription
    ensures d1 == d2
  {
    DescriptionInverse(d1);
    DescriptionInverse(d2);
  }

  /**
   * Classification and description agree except on "u": a code is described
   * as unknown exactly when it is classified unknown or is "u", which is
   * classified final.
   */
  lemma DescriptionMatchesStatus(d: string)
    ensures Description(d) == UnknownDescription <==> (Status(d) == Unknown || d == "u")
    ensures Status("u") == Final && Description("u") == UnknownDescription
  {
  }
}

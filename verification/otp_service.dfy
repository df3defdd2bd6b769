/**
 * src/services/otp.service.js: the reset-code generator, the reset mail and the issuer that
 * stores a code on the record before mailing it. Randomness is an oracle of digit draws and
 * mail delivery is an outcome parameter; a delivered mail is recorded as sent.
 */
module OtpService {
  import opened Wrappers
  import opened Text
  import opened Config
  import opened Errors
  import opened UserModel
  import opened UserService

  /** One value of `crypto.randomInt(0, 10)`: an index into the digit alphabet. */
  type DigitIndex = d: nat | d < 10

  /** The random source: its i-th draw. */
  type Draws = nat -> DigitIndex

  /** The code built from the first `length` draws, one digit per draw, in draw order. */
  function OtpOf(length: nat, draw: Draws): (otp: string)
    ensures |otp| == length && IsDigits(otp)
    ensures forall i | 0 <= i < length :: otp[i] == Digits[draw(i)]
  {
    if length == 0 then "" else OtpOf(length - 1, draw) + [Digits[draw(length - 1)]]
  }

  /** `generateOtp`: append one random digit per round, `length` rounds. */
  method GenerateOtp(length: nat, draw: Draws) returns (otp: string)
    ensures otp == OtpOf(length, draw)
  {
    otp := "";
    var index := 0;
    while index < length
      invariant 0 <= index <= length
      invariant otp == OtpOf(index, draw)
    {
      otp := otp + [Digits[draw(index)]];
      index := index + 1;
    }
  }

  /** A reset-code mail as handed to the transport. */
  datatype Mail = Mail(to: string, subject: string, text: string, html: string)

  const SubjectTail: string := " password reset code"
  const TextLead: string := "Your password reset code is "
  const TextMiddle: string := ". It expires in "
  const TextTail: string := " minutes."

  /** `sendResetOtpEmail`'s message: subject, plain-text body and HTML body. */
  function ResetOtpEmail(to: string, otp: string, expiresInMinutes: nat, appName: string): (m: Mail)
    ensures m.to == to
    ensures StartsWith(m.subject, appName)
  {
    Mail(to,
      appName + SubjectTail,
      TextLead + otp + TextMiddle + DecimalString(expiresInMinutes) + TextTail,
      "<p>Your password reset code is <strong>" + otp + "</strong>.</p><p>The code expires in "
        + DecimalString(expiresInMinutes) + " minutes.</p>")
  }

  /** The code a reader finds in a reset mail's text: the digits right after the lead-in. */
  function CodeInText(text: string): string {
    if StartsWith(text, TextLead) then LeadingDigits(text[|TextLead|..]) else ""
  }

  /** The number of minutes a reader finds in a reset mail's text, given the code's length. */
  function MinutesInText(text: string, codeLength: nat): nat {
    var at := |TextLead| + codeLength + |TextMiddle|;
    if at <= |text| then DecimalValue(LeadingDigits(text[at..])) else 0
  }

  /** A reader of the text body recovers exactly the code that was put in. */
  lemma ResetMailCarriesCode(to: string, otp: string, minutes: nat, appName: string)
    requires IsDigits(otp)
    ensures CodeInText(ResetOtpEmail(to, otp, minutes, appName).text) == otp
  {
    var text := ResetOtpEmail(to, otp, minutes, appName).text;
    var rest := TextMiddle + DecimalString(minutes) + TextTail;
    assert text == TextLead + (otp + rest);
    assert StartsWith(text, TextLead);
    assert text[|TextLead|..] == otp + rest;
    LeadingDigitsOf(otp, rest);
  }

  /** A reader of the text body recovers exactly the expiry minutes that were put in. */
  lemma ResetMailCarriesMinutes(to: string, otp: string, minutes: nat, appName: string)
    ensures MinutesInText(ResetOtpEmail(to, otp, minutes, appName).text, |otp|) == minutes
  {
    var text := ResetOtpEmail(to, otp, minutes, appName).text;
    var at := |TextLead| + |otp| + |TextMiddle|;
    assert text == (TextLead + otp + TextMiddle) + (DecimalString(minutes) + TextTail);
    assert text[at..] == DecimalString(minutes) + TextTail;
    LeadingDigitsOf(DecimalString(minutes), TextTail);
    DecimalRoundTrip(minutes);
  }

  /** The subject is the application name followed by the fixed tail. */
  lemma ResetMailSubject(to: string, otp: string, minutes: nat, appName: string)
    ensures ResetOtpEmail(to, otp, minutes, appName).subject == appName + " password reset code"
  {
  }

  /** How the transport answers: delivered, or an error with its message. */
  datatype Delivery = Delivered | Undeliverable(reason: string)

  /** The store after an issue, the mails delivered, and what the caller sees. */
  datatype Dispatch = Dispatch(store: Store, sent: seq<Mail>, outcome: Result<(), Thrown>)

  /** When a code issued at `now` stops being accepted, in milliseconds. */
  function OtpExpiry(now: int): (t: int)
    ensures t - now == OtpExpirationMinutes * 60 * 1000
  {
    now + OtpExpirationMinutes * MillisPerMinute
  }

  /**
   * `assignAndSendOtp`: generate a code, store it with its expiry on the user's record (replacing
   * any earlier code), then mail that same code to the user's address. The write happens before
   * the send, so a failed delivery still leaves the new code stored.
   */
  function AssignAndSendOtp(s: Store, user: User, now: int, draw: Draws, delivery: Delivery): (d: Dispatch)
    ensures d.store == SetResetOtp(s, user.id, OtpOf(OtpLength, draw), OtpExpiry(now))
    ensures delivery.Delivered? ==>
      && d.outcome.Success?
      && d.sent == [ResetOtpEmail(user.email, OtpOf(OtpLength, draw), OtpExpirationMinutes, AppClientName)]
    ensures delivery.Undeliverable? ==> d.sent == [] && d.outcome == Failure(Raw(None, delivery.reason))
    ensures forall m | m in d.sent :: m.to == user.email && CodeInText(m.text) == OtpOf(OtpLength, draw)
    ensures user.id in s.users ==>
      && d.store.users[user.id].resetOtp == Some(OtpOf(OtpLength, draw))
      && d.store.users[user.id].resetOtpExpires == Some(now + OtpExpirationMinutes * 60 * 1000)
  {
    var otp := OtpOf(OtpLength, draw);
    var s' := SetResetOtp(s, user.id, otp, OtpExpiry(now));
    var mail := ResetOtpEmail(user.email, otp, OtpExpirationMinutes, AppClientName);
    ResetMailCarriesCode(user.email, otp, OtpExpirationMinutes, AppClientName);
    match delivery
    case Delivered => Dispatch(s', [mail], Success(()))
    case Undeliverable(reason) => Dispatch(s', [], Failure(Raw(None, reason)))
  }
}

/**
 * utils/mailer.go: the `Mailer` that sends one HTML e-mail through an SMTP
 * account. `Send` checks both addresses before anything goes out and
 * `formatBody` writes the message, header lines first, then the body.
 */
module Mailing {
  import opened Wrappers
  import opened Strings
  import EmailCheck

  /** The SMTP account a `Mailer` sends through. */
  datatype Mailer = Mailer(host: string, port: string, username: string, password: string)

  /**
   * One call of `smtp.SendMail(addr, auth, sender, recipients, message)` with
   * `auth` made by `smtp.PlainAuth(identity, username, password, authHost)`.
   */
  datatype Delivery = Delivery(addr: string, identity: string, username: string, password: string, authHost: string,
                               sender: string, recipients: seq<string>, message: string)

  /** The fixed lines between the subject and the blank line that ends the header. */
  const MimeVersion: string := "MIME-version: 1.0;"
  const ContentType: string := "Content-Type: text/html; charset=\"UTF-8\";"

  /**
   * The piece `formatBody` appends after the subject, the text
   * "MIME-version: 1.0;\nContent-Type: text/html; charset=\"UTF-8\";\n\n": both
   * fixed lines, each ended by a line feed, then the blank line.
   */
  const MimeBlock: string := MimeVersion + "\n" + ContentType + "\n" + "\n"

  /**
   * A "From: " or "To: " field: the bare address when no name is given, else
   * the trimmed name with the address in angle brackets. Whether a name is
   * given is decided on the untrimmed name.
   */
  function AddressField(tag: string, email: string, name: string): string
  {
    if name == "" then tag + email else tag + TrimSpace(name) + " <" + email + ">"
  }

  /** The header lines of a message, in the order they are written. */
  function HeaderLines(fromEmail: string, fromName: string, toEmail: string, toName: string, subject: string)
    : (lines: seq<string>)
    ensures |lines| == 5
  {
    [AddressField("From: ", fromEmail, fromName), AddressField("To: ", toEmail, toName), "Subject: " + TrimSpace(subject),
     MimeVersion, ContentType]
  }

  /** Lines one after another, each ended by a line feed. */
  function Terminated(lines: seq<string>): string
  {
    if lines == [] then "" else lines[0] + "\n" + Terminated(lines[1..])
  }

  /** The message: the header lines, a blank line, then the trimmed body. */
  function Compose(fromEmail: string, fromName: string, toEmail: string, toName: string, subject: string, body: string)
    : string
  {
    Terminated(HeaderLines(fromEmail, fromName, toEmail, toName, subject)) + "\n" + TrimSpace(body)
  }

  /** `formatBody`: the message built by appending one piece at a time. */
  method FormatBody(fromEmail: string, fromName: string, toEmail: string, toName: string, subject: string,
                    body: string)
    returns (formatted: string)
    ensures formatted == Compose(fromEmail, fromName, toEmail, toName, subject, body)
  {
    formatted := [];
    formatted := AppendField(formatted, "From: ", fromEmail, fromName);
    ghost var from := AddressField("From: ", fromEmail, fromName) + "\n";
    assert formatted == from;
    formatted := AppendField(formatted, "To: ", toEmail, toName);
    ghost var fields := formatted;
    formatted := formatted + ("Subject: " + TrimSpace(subject) + "\n");
    formatted := formatted + MimeBlock;
    formatted := formatted + TrimSpace(body);
    ghost var lines := HeaderLines(fromEmail, fromName, toEmail, toName, subject);
    assert fields == lines[0] + "\n" + (lines[1] + "\n");
    assert formatted == fields + (lines[2] + "\n") + (lines[3] + "\n" + lines[4] + "\n" + "\n") + TrimSpace(body);
    Written(lines, TrimSpace(body));
  }

  /** One "From: " or "To: " line appended to the message. */
  method AppendField(formatted: string, tag: string, email: string, name: string) returns (grown: string)
    ensures grown == formatted + (AddressField(tag, email, name) + "\n")
  {
    if name == "" {
      grown := formatted + (tag + email + "\n");
    } else {
      grown := formatted + (tag + TrimSpace(name) + " <" + email + ">\n");
      assert ">\n" == ">" + "\n";
    }
  }

  /** The appended pieces, regrouped into the terminated header lines. */
  lemma Written(lines: seq<string>, body: string)
    requires |lines| == 5
    ensures lines[0] + "\n" + (lines[1] + "\n") + (lines[2] + "\n") + (lines[3] + "\n" + lines[4] + "\n" + "\n") + body
      == Terminated(lines) + "\n" + body
  {
    assert Terminated(lines[4..]) == lines[4] + "\n" + Terminated(lines[5..]);
    assert Terminated(lines[3..]) == lines[3] + "\n" + Terminated(lines[4..]);
    assert Terminated(lines[2..]) == lines[2] + "\n" + Terminated(lines[3..]);
    assert Terminated(lines[1..]) == lines[1] + "\n" + Terminated(lines[2..]);
  }

  /** Terminated lines free of line feeds are read back by splitting at the line feeds. */
  lemma {:induction false} TerminatedSplit(lines: seq<string>, tail: string)
    requires forall i :: 0 <= i < |lines| ==> '\n' !in lines[i]
    ensures Split(Terminated(lines) + tail, '\n') == lines + Split(tail, '\n')
    decreases |lines|
  {
    if lines != [] {
      var rest := Terminated(lines[1..]) + tail;
      Regrouped(lines[0], Terminated(lines[1..]), tail);
      SplitAfterPiece(lines[0], '\n', rest);
      TerminatedSplit(lines[1..], tail);
      assert [lines[0]] + lines[1..] == lines;
    } else {
      assert Terminated(lines) + tail == tail;
    }
  }

  /** A line, its line feed and what follows, regrouped around the line feed. */
  lemma Regrouped(line: string, more: string, tail: string)
    ensures line + "\n" + more + tail == line + ['\n'] + (more + tail)
  {
  }

  /** Trimming only removes characters. */
  lemma TrimKeepsOut(s: string, c: char)
    requires c !in s
    ensures c !in TrimSpace(s)
  {
    TrimSpaceInfix(s);
  }

  /** Terminated lines free of line feeds, a blank line and a body split into the lines, the empty one, and the body's. */
  lemma ReadBack(lines: seq<string>, body: string)
    requires forall i :: 0 <= i < |lines| ==> '\n' !in lines[i]
    ensures Split(Terminated(lines) + "\n" + body, '\n') == lines + [""] + Split(body, '\n')
  {
    var tail := "\n" + body;
    assert Terminated(lines) + "\n" + body == Terminated(lines) + tail;
    TerminatedSplit(lines, tail);
    assert tail == [] + ['\n'] + body;
    SplitAfterPiece([], '\n', body);
  }

  /** Neither fixed line holds a line feed. */
  lemma FixedLinesUnbroken()
    ensures '\n' !in MimeVersion && '\n' !in ContentType
  {
  }

  /**
   * When no address, name or subject holds a line feed, a reader splitting
   * the message at its line feeds finds exactly the five header lines, then
   * the empty line, then the lines of the trimmed body.
   */
  lemma HeaderReadBack(fromEmail: string, fromName: string, toEmail: string, toName: string, subject: string,
                       body: string)
    requires '\n' !in fromEmail && '\n' !in fromName && '\n' !in toEmail && '\n' !in toName && '\n' !in subject
    ensures Split(Compose(fromEmail, fromName, toEmail, toName, subject, body), '\n')
      == HeaderLines(fromEmail, fromName, toEmail, toName, subject) + [""] + Split(TrimSpace(body), '\n')
  {
    var lines := HeaderLines(fromEmail, fromName, toEmail, toName, subject);
    TrimKeepsOut(fromName, '\n');
    TrimKeepsOut(toName, '\n');
    TrimKeepsOut(subject, '\n');
    FieldWithoutBreak("From: ", fromEmail, fromName);
    FieldWithoutBreak("To: ", toEmail, toName);
    FixedLinesUnbroken();
    assert '\n' !in lines[2];
    ReadBack(lines, TrimSpace(body));
  }

  /** An address field holds a line feed only when its address or trimmed name does. */
  lemma FieldWithoutBreak(tag: string, email: string, name: string)
    requires '\n' !in tag && '\n' !in email && '\n' !in TrimSpace(name)
    ensures '\n' !in AddressField(tag, email, name)
  {
  }

  /**
   * A name of white space only counts as given: its field keeps the angle
   * brackets with nothing before them but two spaces.
   */
  lemma BlankNameKept(tag: string, email: string, name: string)
    requires name != "" && AllSpace(name)
    ensures AddressField(tag, email, name) == tag + " <" + email + ">"
  {
    TrimSpaceEmpty(name);
  }

  /** `Send`: the `deliver` parameter is the SMTP exchange, true when the mail server accepts the message. */
  method Send(mailer: Mailer, fromEmail: string, fromName: string, toEmail: string, toName: string, subject: string,
              body: string, deliver: Delivery -> bool)
    returns (err: Option<AppError>, sent: Option<Delivery>)
    ensures !EmailCheck.CheckEmail(fromEmail) ==>
      err == Some(AppError(500, "Invalid origin email address.")) && sent == None
    ensures EmailCheck.CheckEmail(fromEmail) && !EmailCheck.CheckEmail(toEmail) ==>
      err == Some(AppError(500, "Invalid destination email address.")) && sent == None
    ensures sent.Some? <==> EmailCheck.CheckEmail(fromEmail) && EmailCheck.CheckEmail(toEmail)
    ensures sent.Some? ==>
      && sent.value == Delivery(mailer.host + ":" + mailer.port, "", mailer.username, mailer.password, mailer.host,
                                mailer.username, [toEmail], Compose(fromEmail, fromName, toEmail, toName, subject, body))
      && (err == None <==> deliver(sent.value))
      && (err != None ==> err == Some(AppError(500, "Error sending email.")))
  {
    if !EmailCheck.CheckEmail(fromEmail) {
      return Some(AppError(500, "Invalid origin email address.")), None;
    }
    if !EmailCheck.CheckEmail(toEmail) {
      return Some(AppError(500, "Invalid destination email address.")), None;
    }
    var message := FormatBody(fromEmail, fromName, toEmail, toName, subject, body);
    var delivery := Delivery(mailer.host + ":" + mailer.port, "", mailer.username, mailer.password, mailer.host,
                             mailer.username, [toEmail], message);
    sent := Some(delivery);
    if !deliver(delivery) {
      err := Some(AppError(500, "Error sending email."));
    } else {
      err := None;
    }
  }
}

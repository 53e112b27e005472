/**
 * The enquiry email (backend/services/emailService.js): a guard on the item
 * details, the message fields (sender, recipient with its fallbacks, subject,
 * HTML and plain-text bodies) and the boolean result. The mail transport is
 * an oracle `deliver` that says whether it accepted a message; every failure
 * inside the service becomes `false`, so the service never fails outright.
 */
module EmailService {
  import opened Wrappers
  import opened Text

  /** The item fields the service reads; `None` is an absent property. */
  datatype ItemDetails = ItemDetails(itemName: Option<string>, itemType: Option<string>, description: Option<string>)

  /** The environment variables the service reads. */
  datatype Env = Env(emailUser: Option<string>, adminEmail: Option<string>)

  /** The `mailOptions` record handed to the transport. */
  datatype MailOptions = MailOptions(from: Option<string>, to: string, subject: string, html: string, text: string)

  const DEFAULT_ADMIN_EMAIL: string := "admin@itemmanagement.com"
  const SUBJECT_PREFIX: string := "New Enquiry for Item: "

  /** A template literal's rendering of an optional string (`${undefined}` is "undefined"). */
  function Render(v: Option<string>): (s: string)
    ensures v.Some? ==> s == v.value
  {
    if v.Some? then v.value else "undefined"
  }

  /** `recipientEmail || ADMIN_EMAIL || 'admin@itemmanagement.com'`. */
  function Recipient(recipientEmail: Option<string>, env: Env): (to: string)
    ensures to != ""
    ensures Truthy(recipientEmail) ==> to == recipientEmail.value
    ensures !Truthy(recipientEmail) && Truthy(env.adminEmail) ==> to == env.adminEmail.value
    ensures !Truthy(recipientEmail) && !Truthy(env.adminEmail) ==> to == DEFAULT_ADMIN_EMAIL
  {
    if Truthy(recipientEmail) then recipientEmail.value
    else if Truthy(env.adminEmail) then env.adminEmail.value
    else DEFAULT_ADMIN_EMAIL
  }

  // The fixed fragments of the two bodies, around the three interpolated fields.
  const HTML_HEAD: string := "<div><h2>Item Enquiry Received</h2><table><tr><td><strong>Item Name:</strong></td><td>"
  const HTML_TYPE: string := "</td></tr><tr><td><strong>Item Type:</strong></td><td>"
  const HTML_DESCRIPTION: string := "</td></tr><tr><td><strong>Description:</strong></td><td>"
  const HTML_TAIL: string := "</td></tr></table><p>This is an automated enquiry notification.</p></div>"
  const TEXT_HEAD: string := "Item Enquiry Received\nItem Name: "
  const TEXT_TYPE: string := "\nItem Type: "
  const TEXT_DESCRIPTION: string := "\nDescription: "
  const TEXT_TAIL: string := "\n"

  /** A body made of four fixed fragments with the name, type and description between them. */
  function Fill(head: string, name: string, typeLabel: string, kind: string,
                descriptionLabel: string, description: string, tail: string): string {
    head + name + typeLabel + kind + descriptionLabel + description + tail
  }

  /** A filled body contains each of the three values it was filled with. */
  lemma FillMentions(head: string, name: string, typeLabel: string, kind: string,
                     descriptionLabel: string, description: string, tail: string)
    ensures var body := Fill(head, name, typeLabel, kind, descriptionLabel, description, tail);
      Contains(body, name) && Contains(body, kind) && Contains(body, description)
  {
    var body := Fill(head, name, typeLabel, kind, descriptionLabel, description, tail);
    assert body == head + name + (typeLabel + kind + descriptionLabel + description + tail);
    ContainsInfix(head, name, typeLabel + kind + descriptionLabel + description + tail);
    assert body == (head + name + typeLabel) + kind + (descriptionLabel + description + tail);
    ContainsInfix(head + name + typeLabel, kind, descriptionLabel + description + tail);
    assert body == (head + name + typeLabel + kind + descriptionLabel) + description + tail;
    ContainsInfix(head + name + typeLabel + kind + descriptionLabel, description, tail);
  }

  /** The message for `details`, or `None` when the guard turns the request away. */
  function ComposeMail(details: Option<ItemDetails>, recipientEmail: Option<string>, env: Env): (m: Option<MailOptions>)
    ensures m.Some? <==> details.Some? && Truthy(details.value.itemName)
    ensures m.Some? ==> m.value.from == env.emailUser
    ensures m.Some? ==> m.value.to == Recipient(recipientEmail, env)
    ensures m.Some? ==> m.value.subject == SUBJECT_PREFIX + details.value.itemName.value
  {
    if details.None? || !Truthy(details.value.itemName) then None
    else
      var d := details.value;
      var name, kind, desc := d.itemName.value, Render(d.itemType), Render(d.description);
      Some(MailOptions(env.emailUser, Recipient(recipientEmail, env), SUBJECT_PREFIX + name,
                       Fill(HTML_HEAD, name, HTML_TYPE, kind, HTML_DESCRIPTION, desc, HTML_TAIL),
                       Fill(TEXT_HEAD, name, TEXT_TYPE, kind, TEXT_DESCRIPTION, desc, TEXT_TAIL)))
  }

  /** Both bodies of a composed message mention the item's name, type and description. */
  lemma MailMentionsItem(details: Option<ItemDetails>, recipientEmail: Option<string>, env: Env)
    requires ComposeMail(details, recipientEmail, env).Some?
    ensures var m := ComposeMail(details, recipientEmail, env).value;
      var d := details.value;
      && Contains(m.html, d.itemName.value) && Contains(m.text, d.itemName.value)
      && Contains(m.html, Render(d.itemType)) && Contains(m.text, Render(d.itemType))
      && Contains(m.html, Render(d.description)) && Contains(m.text, Render(d.description))
  {
    var d := details.value;
    var name, kind, desc := d.itemName.value, Render(d.itemType), Render(d.description);
    FillMentions(HTML_HEAD, name, HTML_TYPE, kind, HTML_DESCRIPTION, desc, HTML_TAIL);
    FillMentions(TEXT_HEAD, name, TEXT_TYPE, kind, TEXT_DESCRIPTION, desc, TEXT_TAIL);
  }

  /** `sendEnquiryEmail(itemDetails, recipientEmail)`: true exactly when the guard lets the
      request through and the transport accepts the composed message; otherwise false. */
  function SendEnquiryEmail(details: Option<ItemDetails>, recipientEmail: Option<string>, env: Env,
                            deliver: MailOptions -> bool): (sent: bool)
    ensures sent ==> details.Some? && Truthy(details.value.itemName)
    ensures sent <==> ComposeMail(details, recipientEmail, env).Some?
                      && deliver(ComposeMail(details, recipientEmail, env).value)
  {
    match ComposeMail(details, recipientEmail, env)
    case None => false
    case Some(m) => deliver(m)
  }
}

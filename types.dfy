/**
 * The records the core reads. Timestamps (`sent_at`, `created_at`, ISO
 * strings in the database) are held as the integer instant, in
 * milliseconds, that `new Date(...).getTime()` gives for them.
 */
module Types {
  import opened Wrappers

  /** An e-mail template; `content` is HTML with `{{placeholder}}` tokens. */
  datatype Template = Template(
    templateId: string,
    name: string,
    content: string,
    toEmail: Option<string>,
    fromName: string,
    replyTo: Option<string>,
    subject: string,
    bcc: Option<string>,
    cc: Option<string>)

  /** A contact an e-mail was sent to, joined with the template's name. */
  datatype Contact = Contact(
    emailId: string,
    sentAt: int,
    emailAddress: string,
    name: Option<string>,
    templateName: string)

  /** A delivery log entry, joined with template and service details. */
  datatype Log = Log(
    logId: string,
    createdAt: int,
    status: string,
    templateId: string,
    serviceId: string,
    message: string,
    templateName: string,
    hostAddress: string,
    emailId: string)

  /** The inclusive local-time bounds of a selected calendar day, in milliseconds. */
  datatype DayWindow = DayWindow(startOfDay: int, endOfDay: int) {
    predicate Holds(t: int) { startOfDay <= t <= endOfDay }
  }

  datatype SortOrder = Asc | Desc
}

/**
 * The mail transport the service hands a composed message to.  The message
 * builder of the e-mail component is reduced to the envelope it would send;
 * the transport records every envelope it is given and answers each with
 * success or an error text, as a fixed function of the envelope decides.
 */
module Transport {
  import opened Wrappers
  import opened Types

  /** What the builder holds when `Send` is called. */
  datatype Envelope = Envelope(
    to: string,
    subject: string,
    body: string,
    from: Option<string>,
    fromName: Option<string>,
    cc: seq<string>,
    bcc: seq<string>,
    replyTo: Option<string>,
    attachments: seq<Attachment>)

  /** One dispatch: the envelope and the transport's answer (`None` is success). */
  datatype Delivery = Delivery(envelope: Envelope, outcome: Option<string>)

  class Mailer {
    /** Every envelope handed over so far, oldest first. */
    var deliveries: seq<Delivery>
    /** The transport's answer to an envelope. */
    const respond: Envelope -> Option<string>

    constructor (respond: Envelope -> Option<string>)
      ensures deliveries == [] && this.respond == respond
    {
      deliveries := [];
      this.respond := respond;
    }

    /** Sends one message: records it and reports the transport's answer. */
    method Send(env: Envelope) returns (err: Option<string>)
      modifies this`deliveries
      ensures err == respond(env)
      ensures deliveries == old(deliveries) + [Delivery(env, err)]
    {
      err := respond(env);
      deliveries := deliveries + [Delivery(env, err)];
    }
  }
}

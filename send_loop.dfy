/**
 * The send loop both mailer variants share, row by row: build the message
 * from the templates and the row, hand it to the transport, record a
 * delivery in the session state, wait.
 */
module SendLoop {
  import opened Wrappers
  import opened Recipients
  import opened Dispatch
  import Template

  /**
   * `build_email`: a message from `sender` to `recipient` whose subject and
   * body are the templates rendered with the row's context, each falling
   * back to its template verbatim when rendering fails.
   */
  function BuildEmail(sender: string, recipient: string, subjectTemplate: string, bodyTemplate: string,
                      row: Row, nameCol: Option<string>, companyCol: Option<string>): (m: Email)
    ensures m.sender == sender && m.recipient == recipient
    ensures var ctx := BuildContext(row, nameCol, companyCol);
      && m.subject == Template.SafeFormat(subjectTemplate, ctx)
      && m.body == Template.SafeFormat(bodyTemplate, ctx)
  {
    var ctx := BuildContext(row, nameCol, companyCol);
    Email(sender, recipient, Template.SafeFormat(subjectTemplate, ctx), Template.SafeFormat(bodyTemplate, ctx))
  }

  /** Without a name column, a subject greeting `{name}` is sent as typed. */
  lemma NoNameColumnSubjectVerbatim(sender: string, recipient: string, subjectTemplate: string,
                                    bodyTemplate: string, row: Row, companyCol: Option<string>)
    requires Template.Parse(subjectTemplate).Some?
    requires Template.Field("name") in Template.Parse(subjectTemplate).value
    ensures BuildEmail(sender, recipient, subjectTemplate, bodyTemplate, row, None, companyCol).subject
            == subjectTemplate
  {
    UnsuppliedFieldKeepsTemplate(row, None, companyCol, subjectTemplate, "name");
  }

  /** The message `build_email` makes for one row. */
  function RowEmail(sender: string, row: Row, emailCol: string, subjectTemplate: string,
                    bodyTemplate: string, nameCol: Option<string>, companyCol: Option<string>): Email
    requires emailCol in row
  {
    BuildEmail(sender, Address(row, emailCol), subjectTemplate, bodyTemplate, row, nameCol, companyCol)
  }

  /** The messages for the rows at the given batch positions, in order. */
  function Messages(sender: string, rows: seq<Row>, emailCol: string, subjectTemplate: string,
                    bodyTemplate: string, nameCol: Option<string>, companyCol: Option<string>,
                    positions: seq<nat>): (ms: seq<Email>)
    requires HasColumn(rows, emailCol)
    requires forall k :: 0 <= k < |positions| ==> positions[k] < |rows|
    ensures |ms| == |positions|
  {
    seq(|positions|, k requires 0 <= k < |positions| =>
      RowEmail(sender, rows[positions[k]], emailCol, subjectTemplate, bodyTemplate, nameCol, companyCol))
  }

  lemma MessagesSnoc(sender: string, rows: seq<Row>, emailCol: string, subjectTemplate: string,
                     bodyTemplate: string, nameCol: Option<string>, companyCol: Option<string>,
                     positions: seq<nat>, i: nat)
    requires HasColumn(rows, emailCol) && i < |rows|
    requires forall k :: 0 <= k < |positions| ==> positions[k] < |rows|
    ensures Messages(sender, rows, emailCol, subjectTemplate, bodyTemplate, nameCol, companyCol, positions + [i])
         == Messages(sender, rows, emailCol, subjectTemplate, bodyTemplate, nameCol, companyCol, positions)
            + [RowEmail(sender, rows[i], emailCol, subjectTemplate, bodyTemplate, nameCol, companyCol)]
  {
  }

  /**
   * What stays fixed over one batch: the sender, the rows and their
   * columns, the templates, the delay and the transport.
   */
  datatype Batch = Batch(sender: string, rows: seq<Row>, emailCol: string,
                         subjectTemplate: string, bodyTemplate: string,
                         nameCol: Option<string>, companyCol: Option<string>,
                         delaySeconds: real, outcome: nat -> Attempt)

  /** The loop's variables agree with the send loop's specification after `i` rows. */
  ghost predicate LoopState(session: SessionState, b: Batch, ledger: set<string>, i: nat,
                            sentCount: nat, outbox: seq<Email>, sleeps: nat, halted: bool)
    requires i <= |b.rows| && HasColumn(b.rows, b.emailCol)
    reads session
  {
    var t := Process(ledger, Addresses(b.rows, b.emailCol), b.outcome, i);
    && session.sentThisSession == t.ledger
    && sentCount == |t.delivered|
    && halted == t.halted
    && outbox == Messages(b.sender, b.rows, b.emailCol, b.subjectTemplate, b.bodyTemplate,
                          b.nameCol, b.companyCol, t.attempted)
    && sleeps == (if b.delaySeconds > 0.0 then |t.attempted| else 0)
  }

  /** A loop that stopped early on an escaped exception is in the state after the last row. */
  lemma LoopFinished(session: SessionState, b: Batch, ledger: set<string>, i: nat,
                     sentCount: nat, outbox: seq<Email>, sleeps: nat, halted: bool)
    requires i <= |b.rows| && HasColumn(b.rows, b.emailCol) && (i == |b.rows| || halted)
    requires LoopState(session, b, ledger, i, sentCount, outbox, sleeps, halted)
    ensures LoopState(session, b, ledger, |b.rows|, sentCount, outbox, sleeps, halted)
  {
    if i < |b.rows| {
      HaltedStays(ledger, Addresses(b.rows, b.emailCol), b.outcome, i, |b.rows|);
    }
  }

  /**
   * One pass of the loop in `send_batch_for_account`: skip row `i` if its
   * address is blank or already sent, else build its message, hand it to
   * the transport, record a delivery and wait.
   */
  method SendRow(session: SessionState, b: Batch, ghost ledger: set<string>, i: nat,
                 sentCount: nat, outbox: seq<Email>, sleeps: nat)
    returns (sentCount': nat, outbox': seq<Email>, sleeps': nat, halted: bool)
    requires i < |b.rows| && HasColumn(b.rows, b.emailCol)
    requires LoopState(session, b, ledger, i, sentCount, outbox, sleeps, false)
    modifies session
    ensures LoopState(session, b, ledger, i + 1, sentCount', outbox', sleeps', halted)
    ensures session.emailsSent == old(session.emailsSent) + sentCount' - sentCount
    ensures session.totalEmails == old(session.totalEmails)
  {
    ProcessStep(ledger, Addresses(b.rows, b.emailCol), b.outcome, i);
    ghost var t := Process(ledger, Addresses(b.rows, b.emailCol), b.outcome, i);
    sentCount', outbox', sleeps', halted := sentCount, outbox, sleeps, false;
    var recipient := Address(b.rows[i], b.emailCol);
    if recipient != [] && recipient !in session.sentThisSession {
      if b.outcome(i).Raised? {
        halted := true;
      } else {
        var msg := RowEmail(b.sender, b.rows[i], b.emailCol, b.subjectTemplate, b.bodyTemplate,
                            b.nameCol, b.companyCol);
        MessagesSnoc(b.sender, b.rows, b.emailCol, b.subjectTemplate, b.bodyTemplate,
                     b.nameCol, b.companyCol, t.attempted, i);
        outbox' := outbox + [msg];
        if b.outcome(i).Delivered? {
          sentCount' := sentCount + 1;
          session.sentThisSession := session.sentThisSession + {recipient};
          session.emailsSent := session.emailsSent + 1;
        }
        if b.delaySeconds > 0.0 {
          sleeps' := sleeps + 1;
        }
      }
    }
  }
}

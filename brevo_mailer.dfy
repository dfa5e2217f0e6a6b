/**
 * The single-sender mailer that sends through Brevo's transactional email
 * API. It has no session setup: the loop runs over every valid row with
 * the one verified sender address. A refusal by the API (`ApiException`) is
 * reported and the loop goes on; any other exception leaves the send
 * function and ends the run, keeping whatever the session state recorded
 * before it.
 *
 * The API is an oracle: `outcome(i)` is what happens to the message for
 * valid row `i`.
 */
module BrevoMailer {
  import opened Wrappers
  import opened Recipients
  import opened Dispatch
  import opened SendLoop

  /**
   * `send_batch_for_account`. Returns the number sent, the messages the API
   * accepted or refused (in order), how many delays were taken and whether
   * an exception escaped (in which case the function returns nothing and
   * the state keeps its updates so far).
   */
  method SendBatchForAccount(session: SessionState, senderEmail: string, rows: seq<Row>, emailCol: string,
                             subjectTemplate: string, bodyTemplate: string,
                             nameCol: Option<string>, companyCol: Option<string>,
                             delaySeconds: real, outcome: nat -> Attempt)
    returns (sentCount: nat, outbox: seq<Email>, sleeps: nat, raised: bool)
    requires HasColumn(rows, emailCol)
    modifies session
    ensures var t := Process(old(session.sentThisSession), Addresses(rows, emailCol), outcome, |rows|);
      && session.sentThisSession == t.ledger
      && sentCount == |t.delivered|
      && raised == t.halted
      && session.emailsSent == old(session.emailsSent) + sentCount
      && outbox == Messages(senderEmail, rows, emailCol, subjectTemplate, bodyTemplate,
                            nameCol, companyCol, t.attempted)
      && sleeps == (if delaySeconds > 0.0 then |t.attempted| else 0)
    ensures session.totalEmails == old(session.totalEmails)
  {
    sentCount, outbox, sleeps, raised := 0, [], 0, false;
    ghost var ledger := session.sentThisSession;
    var batch := Batch(senderEmail, rows, emailCol, subjectTemplate, bodyTemplate, nameCol, companyCol,
                       delaySeconds, outcome);
    assert Messages(senderEmail, rows, emailCol, subjectTemplate, bodyTemplate, nameCol, companyCol, []) == [];
    var i := 0;
    while i < |rows| && !raised
      invariant i <= |rows|
      invariant LoopState(session, batch, ledger, i, sentCount, outbox, sleeps, raised)
      invariant session.emailsSent == old(session.emailsSent) + sentCount
      invariant session.totalEmails == old(session.totalEmails)
    {
      sentCount, outbox, sleeps, raised :=
        SendRow(session, batch, ledger, i, sentCount, outbox, sleeps);
      i := i + 1;
    }
    LoopFinished(session, batch, ledger, i, sentCount, outbox, sleeps, raised);
  }

  /** What a run reports, given the loop over all valid rows. */
  function Report(rows: seq<Row>, t: Tally): (r: RunReport)
    ensures r.Done? || r.Aborted?
    ensures r.total == |rows|
    ensures r.Done? <==> !t.halted
    ensures r.Done? ==> r.totalSent == |t.delivered|
  {
    if t.halted then Aborted(|rows|) else Done(|rows|, |t.delivered|)
  }

  /**
   * `main`'s send button. Without a table or without a sender address it
   * reports so and changes nothing; otherwise it resets the progress
   * counters to the number of valid rows and sends every valid row from the
   * one sender. The sent set is kept from earlier runs.
   */
  method StartSending(session: SessionState, table: Option<seq<Row>>, emailCol: string,
                      nameCol: Option<string>, companyCol: Option<string>,
                      subjectTemplate: string, bodyTemplate: string, senderEmail: string,
                      delaySeconds: real, outcome: nat -> Attempt)
    returns (report: RunReport)
    requires table.Some? ==> HasColumn(table.value, emailCol)
    modifies session
    ensures table.None? ==> report == NoData
    ensures table.Some? && senderEmail == [] ==> report == NoAccounts
    ensures report.NoData? || report.NoAccounts? ==>
      && session.sentThisSession == old(session.sentThisSession)
      && session.emailsSent == old(session.emailsSent)
      && session.totalEmails == old(session.totalEmails)
    ensures table.Some? && senderEmail != [] ==>
      var rows := ValidRows(table.value, emailCol);
      HasColumn(rows, emailCol) &&
      var t := Process(old(session.sentThisSession), Addresses(rows, emailCol), outcome, |rows|);
      && report == Report(rows, t)
      && session.sentThisSession == t.ledger
      && session.emailsSent == |t.delivered|
      && session.totalEmails == |rows|
      && session.emailsSent <= session.totalEmails
  {
    if table.None? {
      return NoData;
    }
    var accounts := if senderEmail != [] then [senderEmail] else [];
    if accounts == [] {
      return NoAccounts;
    }
    var rows := ValidRows(table.value, emailCol);
    var total := |rows|;
    session.totalEmails := total;
    session.emailsSent := 0;
    var totalSent, _, _, raised :=
      SendBatchForAccount(session, accounts[0], rows, emailCol, subjectTemplate, bodyTemplate,
                          nameCol, companyCol, delaySeconds, outcome);
    if raised {
      return Aborted(total);
    }
    report := Done(total, totalSent);
  }

  /**
   * A run emails each address at most once, only addresses of the table's
   * rows that were not already in the sent set, and never more addresses
   * than there are valid rows.
   */
  lemma {:induction false} RunDeliversEachAddressOnce(ledger: set<string>, table: seq<Row>, emailCol: string,
                                                      outcome: nat -> Attempt)
    requires HasColumn(table, emailCol)
    ensures HasColumn(ValidRows(table, emailCol), emailCol)
    ensures var rows := ValidRows(table, emailCol);
      var t := Process(ledger, Addresses(rows, emailCol), outcome, |rows|);
      && Distinct(t.delivered)
      && |t.delivered| <= |rows|
      && ledger <= t.ledger
      && |t.ledger| == |ledger| + |t.delivered|
      && forall k :: 0 <= k < |t.delivered| ==>
           && t.delivered[k] !in ledger
           && exists i :: 0 <= i < |table| && t.delivered[k] == Address(table[i], emailCol)
  {
    var rows := ValidRows(table, emailCol);
    var t := Process(ledger, Addresses(rows, emailCol), outcome, |rows|);
    ProcessAccounted(ledger, Addresses(rows, emailCol), outcome, |rows|);
    BatchGrowth(ledger, Addresses(rows, emailCol), outcome);
    AttemptsHaveAddresses(ledger, Addresses(rows, emailCol), outcome, |rows|);
    forall k | 0 <= k < |t.delivered|
      ensures exists i :: 0 <= i < |table| && t.delivered[k] == Address(table[i], emailCol)
    {
      var r :| 0 <= r < |rows| && t.delivered[k] == Addresses(rows, emailCol)[r];
      KeptAddressFromTable(table, emailCol, r);
    }
  }

  /** A row whose address is already in the sent set is not sent to again. */
  lemma {:induction false} SentAddressNotResent(ledger: set<string>, rows: seq<Row>, emailCol: string,
                                                outcome: nat -> Attempt, j: nat)
    requires HasColumn(rows, emailCol) && j < |rows| && Address(rows[j], emailCol) in ledger
    ensures j !in Process(ledger, Addresses(rows, emailCol), outcome, |rows|).attempted
  {
    AttemptsAreFresh(ledger, Addresses(rows, emailCol), outcome, |rows|);
  }
}

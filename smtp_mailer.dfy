/**
 * The multi-account SMTP mailer: each sender account opens one SMTP
 * session (connect, STARTTLS, login) and sends its round-robin share of the
 * valid rows, one message per row, skipping blank and already-sent
 * addresses.
 *
 * The network is an oracle: `Setup` says how far the session setup got, and
 * `outcome(i)` what happens to the message for row `i` of the batch.
 */
module SmtpMailer {
  import opened Wrappers
  import opened Recipients
  import opened Dispatch
  import opened SendLoop
  import RoundRobin

  /** One configured sender account. */
  datatype Account = Account(email: string, password: string, smtpServer: string, smtpPort: string)

  /** How far the session setup got. */
  datatype Setup =
    | ConnectRaised   // `smtplib.SMTP(host, port)` raised: no server object exists
    | StartTlsRaised  // `starttls` raised
    | LoginRaised     // `login` raised
    | Ready

  /**
   * What one account's batch does to the sent set, given the stripped
   * addresses of its rows: nothing unless the session was set up, else the
   * send loop over all its rows.
   */
  function SmtpBatch(ledger: set<string>, addrs: seq<string>, setup: Setup, outcome: nat -> Attempt): (t: Tally)
    ensures |t.delivered| <= |t.attempted| <= |addrs|
    ensures !setup.Ready? ==> t.delivered == [] && t.attempted == []
  {
    if setup.Ready? then Process(ledger, addrs, outcome, |addrs|)
    else Tally(ledger, [], [], false)
  }

  /**
   * `send_batch_for_account`. Returns the number sent, the messages handed
   * to the transport (in order), how many delays were taken and how many
   * times `quit` was called.
   *
   * An `outcome(i) == Raised` stands for `build_email` raising for row `i`
   * (the email library rejecting a header): the outer handler catches it,
   * ending the batch.
   */
  method SendBatchForAccount(session: SessionState, account: Account, rows: seq<Row>, emailCol: string,
                             subjectTemplate: string, bodyTemplate: string,
                             nameCol: Option<string>, companyCol: Option<string>,
                             delaySeconds: real, setup: Setup, outcome: nat -> Attempt)
    returns (sentCount: nat, outbox: seq<Email>, sleeps: nat, quits: nat)
    requires HasColumn(rows, emailCol)
    modifies session
    ensures var t := SmtpBatch(old(session.sentThisSession), Addresses(rows, emailCol), setup, outcome);
      && session.sentThisSession == t.ledger
      && sentCount == |t.delivered|
      && session.emailsSent == old(session.emailsSent) + sentCount
      && outbox == Messages(account.email, rows, emailCol, subjectTemplate, bodyTemplate,
                            nameCol, companyCol, t.attempted)
      && sleeps == (if delaySeconds > 0.0 then |t.attempted| else 0)
    ensures session.totalEmails == old(session.totalEmails)
    ensures sentCount <= |rows|
    ensures quits == if setup.ConnectRaised? then 0 else 1
  {
    sentCount, outbox, sleeps, quits := 0, [], 0, 0;
    assert Messages(account.email, rows, emailCol, subjectTemplate, bodyTemplate,
                    nameCol, companyCol, []) == [];
    if !setup.Ready? {
      if !setup.ConnectRaised? {
        quits := 1;
      }
      return;
    }
    quits := 1;
    ghost var ledger := session.sentThisSession;
    var batch := Batch(account.email, rows, emailCol, subjectTemplate, bodyTemplate, nameCol, companyCol,
                       delaySeconds, outcome);
    var i, halted := 0, false;
    while i < |rows| && !halted
      invariant i <= |rows|
      invariant LoopState(session, batch, ledger, i, sentCount, outbox, sleeps, halted)
      invariant session.emailsSent == old(session.emailsSent) + sentCount
      invariant session.totalEmails == old(session.totalEmails)
    {
      sentCount, outbox, sleeps, halted :=
        SendRow(session, batch, ledger, i, sentCount, outbox, sleeps);
      i := i + 1;
    }
    LoopFinished(session, batch, ledger, i, sentCount, outbox, sleeps, halted);
    assert SmtpBatch(ledger, Addresses(rows, emailCol), setup, outcome) == Process(ledger, Addresses(rows, emailCol), outcome, |rows|);
  }

  /** Every bucket has the address column. */
  predicate AllHaveColumn(buckets: seq<seq<Row>>, emailCol: string)
  {
    forall k :: 0 <= k < |buckets| ==> HasColumn(buckets[k], emailCol)
  }

  /** The stripped addresses of each bucket's rows. */
  function BucketAddresses(buckets: seq<seq<Row>>, emailCol: string): (abs: seq<seq<string>>)
    requires AllHaveColumn(buckets, emailCol)
    ensures |abs| == |buckets|
    ensures forall b :: 0 <= b < |buckets| ==> |abs[b]| == |buckets[b]|
  {
    seq(|buckets|, b requires 0 <= b < |buckets| => Addresses(buckets[b], emailCol))
  }

  /** A run's effect: the sent set after it and the addresses delivered, in order. */
  datatype Summary = Summary(ledger: set<string>, delivered: seq<string>)

  /**
   * The dispatch loop over the first `n` accounts, given the addresses of
   * each account's bucket: account `i` sends its bucket through a session
   * set up as `setups(i)`, with `outcomes(i)` as its transport; an empty
   * bucket is skipped.
   */
  function Campaign(ledger: set<string>, abs: seq<seq<string>>,
                    setups: nat -> Setup, outcomes: nat -> nat -> Attempt, n: nat): (c: Summary)
    requires n <= |abs|
    ensures |c.delivered| <= RoundRobin.SumLengths(abs[..n])
  {
    if n == 0 then Summary(ledger, [])
    else
      var c := Campaign(ledger, abs, setups, outcomes, n - 1);
      assert abs[..n][..n - 1] == abs[..n - 1];
      if abs[n - 1] == [] then c
      else
        var t := SmtpBatch(c.ledger, abs[n - 1], setups(n - 1), outcomes(n - 1));
        Summary(t.ledger, c.delivered + t.delivered)
  }

  /** How one more account changes the run. */
  lemma CampaignStep(ledger: set<string>, abs: seq<seq<string>>,
                     setups: nat -> Setup, outcomes: nat -> nat -> Attempt, i: nat)
    requires i < |abs|
    ensures var c := Campaign(ledger, abs, setups, outcomes, i);
      var t := SmtpBatch(c.ledger, abs[i], setups(i), outcomes(i));
      Campaign(ledger, abs, setups, outcomes, i + 1) ==
        if abs[i] == [] then c else Summary(t.ledger, c.delivered + t.delivered)
  {
  }

  /**
   * At most one delivery per address over the whole run: the sent set is
   * the initial set plus every address delivered to, and those are
   * distinct, non-blank and were not in the initial set.
   */
  lemma {:induction false} CampaignAccounted(ledger: set<string>, abs: seq<seq<string>>,
                                             setups: nat -> Setup, outcomes: nat -> nat -> Attempt, n: nat)
    requires n <= |abs|
    ensures var c := Campaign(ledger, abs, setups, outcomes, n);
      Accounted(ledger, c.ledger, c.delivered)
  {
    if n > 0 {
      CampaignAccounted(ledger, abs, setups, outcomes, n - 1);
      CampaignStep(ledger, abs, setups, outcomes, n - 1);
      var c := Campaign(ledger, abs, setups, outcomes, n - 1);
      var batch := abs[n - 1];
      if batch != [] {
        var t := SmtpBatch(c.ledger, batch, setups(n - 1), outcomes(n - 1));
        if setups(n - 1).Ready? {
          ProcessAccounted(c.ledger, batch, outcomes(n - 1), |batch|);
        } else {
          assert Elems([]) == {};
        }
        AccountedTrans(ledger, c.ledger, t.ledger, c.delivered, t.delivered);
      }
    }
  }

  /** An account whose connect, STARTTLS or login fails leaves the run as it was. */
  lemma FailedSetupSkipsAccount(ledger: set<string>, abs: seq<seq<string>>,
                                setups: nat -> Setup, outcomes: nat -> nat -> Attempt, i: nat)
    requires i < |abs| && !setups(i).Ready?
    ensures Campaign(ledger, abs, setups, outcomes, i + 1) == Campaign(ledger, abs, setups, outcomes, i)
  {
    CampaignStep(ledger, abs, setups, outcomes, i);
    var c := Campaign(ledger, abs, setups, outcomes, i);
    assert c.delivered + [] == c.delivered;
  }

  /** One more account keeps the deliveries so far as a prefix and only adds to the sent set. */
  lemma CampaignGrows(ledger: set<string>, abs: seq<seq<string>>,
                      setups: nat -> Setup, outcomes: nat -> nat -> Attempt, i: nat)
    requires i < |abs|
    ensures Campaign(ledger, abs, setups, outcomes, i).delivered <= Campaign(ledger, abs, setups, outcomes, i + 1).delivered
    ensures Campaign(ledger, abs, setups, outcomes, i).ledger <= Campaign(ledger, abs, setups, outcomes, i + 1).ledger
  {
    CampaignStep(ledger, abs, setups, outcomes, i);
    var c := Campaign(ledger, abs, setups, outcomes, i);
    var batch := abs[i];
    if batch != [] && setups(i).Ready? {
      LedgerGrows(c.ledger, batch, outcomes(i), 0, |batch|);
    }
  }

  /**
   * Later accounts never undo earlier ones: the deliveries so far stay a
   * prefix of the run's deliveries and the sent set only grows.
   */
  lemma {:induction false} EarlierDeliveriesStand(ledger: set<string>, abs: seq<seq<string>>,
                                                  setups: nat -> Setup, outcomes: nat -> nat -> Attempt,
                                                  i: nat, m: nat)
    requires i <= m <= |abs|
    ensures Campaign(ledger, abs, setups, outcomes, i).delivered <= Campaign(ledger, abs, setups, outcomes, m).delivered
    ensures Campaign(ledger, abs, setups, outcomes, i).ledger <= Campaign(ledger, abs, setups, outcomes, m).ledger
    decreases m
  {
    if i < m {
      EarlierDeliveriesStand(ledger, abs, setups, outcomes, i, m - 1);
      CampaignGrows(ledger, abs, setups, outcomes, m - 1);
    }
  }

  /** Round-robin buckets are drawn from the rows, so they keep the column. */
  lemma BucketsHaveColumn(rows: seq<Row>, emailCol: string, n: nat)
    requires 0 < n && HasColumn(rows, emailCol)
    ensures AllHaveColumn(RoundRobin.Buckets(rows, n), emailCol)
  {
    forall k | 0 <= k < n ensures HasColumn(RoundRobin.Bucket(rows, n, k), emailCol) {
      RoundRobin.BucketElements(rows, n, k);
    }
  }

  /**
   * The loop over `buckets.items()`: each account with a non-empty bucket
   * sends it; returns the total sent.
   */
  method SendBuckets(session: SessionState, accounts: seq<Account>, buckets: seq<seq<Row>>, emailCol: string,
                     subjectTemplate: string, bodyTemplate: string,
                     nameCol: Option<string>, companyCol: Option<string>,
                     delaySeconds: real, setups: nat -> Setup, outcomes: nat -> nat -> Attempt)
    returns (totalSent: nat)
    requires |buckets| == |accounts| && AllHaveColumn(buckets, emailCol)
    requires session.emailsSent == 0
    modifies session
    ensures var c := Campaign(old(session.sentThisSession), BucketAddresses(buckets, emailCol),
                              setups, outcomes, |buckets|);
      && session.sentThisSession == c.ledger
      && totalSent == |c.delivered|
    ensures session.emailsSent == totalSent
    ensures session.totalEmails == old(session.totalEmails)
  {
    ghost var ledger := session.sentThisSession;
    ghost var abs := BucketAddresses(buckets, emailCol);
    totalSent := 0;
    var i := 0;
    while i < |accounts|
      invariant i <= |accounts|
      invariant var c := Campaign(ledger, abs, setups, outcomes, i);
        && session.sentThisSession == c.ledger
        && totalSent == |c.delivered|
      invariant session.emailsSent == totalSent
      invariant session.totalEmails == old(session.totalEmails)
    {
      CampaignStep(ledger, abs, setups, outcomes, i);
      assert abs[i] == Addresses(buckets[i], emailCol);
      if buckets[i] != [] {
        var sentNow, _, _, _ :=
          SendBatchForAccount(session, accounts[i], buckets[i], emailCol, subjectTemplate, bodyTemplate,
                              nameCol, companyCol, delaySeconds, setups(i), outcomes(i));
        totalSent := totalSent + sentNow;
      }
      i := i + 1;
    }
  }

  /**
   * `main`'s send button. Without a table or without accounts it reports so
   * and changes nothing; otherwise it resets the progress counters to the
   * number of valid rows, deals those rows out round-robin and lets each
   * account with a non-empty bucket send it. The sent set is kept from
   * earlier runs.
   */
  method StartSending(session: SessionState, table: Option<seq<Row>>, emailCol: string,
                      nameCol: Option<string>, companyCol: Option<string>,
                      subjectTemplate: string, bodyTemplate: string, accounts: seq<Account>,
                      delaySeconds: real, setups: nat -> Setup, outcomes: nat -> nat -> Attempt)
    returns (report: RunReport)
    requires table.Some? ==> HasColumn(table.value, emailCol)
    modifies session
    ensures table.None? ==> report == NoData
    ensures table.Some? && accounts == [] ==> report == NoAccounts
    ensures report.NoData? || report.NoAccounts? ==>
      && session.sentThisSession == old(session.sentThisSession)
      && session.emailsSent == old(session.emailsSent)
      && session.totalEmails == old(session.totalEmails)
    ensures table.Some? && accounts != [] ==>
      var rows := ValidRows(table.value, emailCol);
      var bs := RoundRobin.Buckets(rows, |accounts|);
      HasColumn(rows, emailCol) && AllHaveColumn(bs, emailCol) &&
      var c := Campaign(old(session.sentThisSession), BucketAddresses(bs, emailCol), setups, outcomes, |accounts|);
      && report == Done(|rows|, |c.delivered|)
      && session.sentThisSession == c.ledger
      && session.emailsSent == |c.delivered|
      && session.totalEmails == |rows|
      && session.emailsSent <= session.totalEmails
  {
    if table.None? {
      return NoData;
    }
    if accounts == [] {
      return NoAccounts;
    }
    var rows := ValidRows(table.value, emailCol);
    var total := |rows|;
    session.totalEmails := total;
    session.emailsSent := 0;
    var buckets := RoundRobin.Distribute(rows, |accounts|);
    BucketsHaveColumn(rows, emailCol, |accounts|);
    RoundRobin.Partition(rows, |accounts|);
    var totalSent := SendBuckets(session, accounts, buckets, emailCol, subjectTemplate, bodyTemplate,
                                 nameCol, companyCol, delaySeconds, setups, outcomes);
    ghost var abs := BucketAddresses(buckets, emailCol);
    RoundRobin.SameSizes(abs, buckets);
    assert abs[..|abs|] == abs;
    report := Done(total, totalSent);
  }

  /**
   * A run sends at most one message per valid row, never to an address
   * already in the sent set, and the sent set grows by exactly the number of
   * messages sent.
   */
  lemma RunTotals(ledger: set<string>, rows: seq<Row>, emailCol: string, n: nat,
                  setups: nat -> Setup, outcomes: nat -> nat -> Attempt)
    requires 0 < n && HasColumn(rows, emailCol)
    ensures AllHaveColumn(RoundRobin.Buckets(rows, n), emailCol)
    ensures var c := Campaign(ledger, BucketAddresses(RoundRobin.Buckets(rows, n), emailCol), setups, outcomes, n);
      && |c.delivered| <= |rows|
      && ledger <= c.ledger && |c.ledger| == |ledger| + |c.delivered|
      && (forall a :: a in ledger ==> a !in c.delivered)
  {
    BucketsHaveColumn(rows, emailCol, n);
    var bs := RoundRobin.Buckets(rows, n);
    var abs := BucketAddresses(bs, emailCol);
    var c := Campaign(ledger, abs, setups, outcomes, n);
    CampaignAccounted(ledger, abs, setups, outcomes, n);
    RoundRobin.Partition(rows, n);
    RoundRobin.SameSizes(abs, bs);
    assert abs[..n] == abs;
    AccountedGrowth(ledger, c.ledger, c.delivered);
  }

  /** Each delivery of the first `n` accounts went to an address of their buckets. */
  ghost predicate FromBuckets(abs: seq<seq<string>>, n: nat, delivered: seq<string>)
    requires n <= |abs|
  {
    forall k :: 0 <= k < |delivered| ==>
      exists b, j :: 0 <= b < n && 0 <= j < |abs[b]| && delivered[k] == abs[b][j]
  }

  lemma {:induction false} CampaignFromBuckets(ledger: set<string>, abs: seq<seq<string>>,
                                               setups: nat -> Setup, outcomes: nat -> nat -> Attempt, n: nat)
    requires n <= |abs|
    ensures FromBuckets(abs, n, Campaign(ledger, abs, setups, outcomes, n).delivered)
  {
    if n > 0 {
      CampaignFromBuckets(ledger, abs, setups, outcomes, n - 1);
      CampaignStep(ledger, abs, setups, outcomes, n - 1);
      var c := Campaign(ledger, abs, setups, outcomes, n - 1);
      var c' := Campaign(ledger, abs, setups, outcomes, n);
      var batch := abs[n - 1];
      if batch != [] {
        var t := SmtpBatch(c.ledger, batch, setups(n - 1), outcomes(n - 1));
        assert c'.delivered == c.delivered + t.delivered;
        if setups(n - 1).Ready? {
          AttemptsHaveAddresses(c.ledger, batch, outcomes(n - 1), |batch|);
        }
        forall k | 0 <= k < |c'.delivered|
          ensures exists b, j :: 0 <= b < n && 0 <= j < |abs[b]| && c'.delivered[k] == abs[b][j]
        {
          if k < |c.delivered| {
            assert c'.delivered[k] == c.delivered[k];
            var b, j :| 0 <= b < n - 1 && 0 <= j < |abs[b]| && c.delivered[k] == abs[b][j];
          } else {
            var d := k - |c.delivered|;
            assert c'.delivered[k] == t.delivered[d];
            var j :| 0 <= j < |batch| && t.delivered[d] == batch[j];
          }
        }
      }
    }
  }

  /** Every address a run emails is the non-blank address of one of the table's rows. */
  lemma RunSendsToTableRows(ledger: set<string>, table: seq<Row>, emailCol: string, n: nat,
                            setups: nat -> Setup, outcomes: nat -> nat -> Attempt)
    requires 0 < n && HasColumn(table, emailCol)
    ensures AllHaveColumn(RoundRobin.Buckets(ValidRows(table, emailCol), n), emailCol)
    ensures var c := Campaign(ledger, BucketAddresses(RoundRobin.Buckets(ValidRows(table, emailCol), n), emailCol),
                              setups, outcomes, n);
      forall k :: 0 <= k < |c.delivered| ==>
        c.delivered[k] != [] && exists i :: 0 <= i < |table| && c.delivered[k] == Address(table[i], emailCol)
  {
    var rows := ValidRows(table, emailCol);
    BucketsHaveColumn(rows, emailCol, n);
    ValidRowsFromTable(table, emailCol);
    var bs := RoundRobin.Buckets(rows, n);
    var abs := BucketAddresses(bs, emailCol);
    var c := Campaign(ledger, abs, setups, outcomes, n);
    CampaignFromBuckets(ledger, abs, setups, outcomes, n);
    CampaignAccounted(ledger, abs, setups, outcomes, n);
    forall k | 0 <= k < |c.delivered|
      ensures exists i :: 0 <= i < |table| && c.delivered[k] == Address(table[i], emailCol)
    {
      var b, j :| 0 <= b < n && 0 <= j < |abs[b]| && c.delivered[k] == abs[b][j];
      assert abs[b] == Addresses(bs[b], emailCol);
      assert bs[b] == RoundRobin.Bucket(rows, n, b);
      RoundRobin.BucketElements(rows, n, b);
      var x := bs[b][j];
      assert x in rows;
      var i :| 0 <= i < |table| && table[i] == x;
    }
  }

  /** If no account gets its session set up, a run sends nothing and the sent set stays as it was. */
  lemma {:induction false} NoSessionNoMail(ledger: set<string>, abs: seq<seq<string>>,
                                           setups: nat -> Setup, outcomes: nat -> nat -> Attempt, n: nat)
    requires n <= |abs|
    requires forall i :: 0 <= i < n ==> !setups(i).Ready?
    ensures Campaign(ledger, abs, setups, outcomes, n) == Summary(ledger, [])
  {
    if n > 0 {
      NoSessionNoMail(ledger, abs, setups, outcomes, n - 1);
    }
  }

  /** With a single account, that account's batch is every valid row. */
  lemma OneAccountSendsAll(ledger: set<string>, rows: seq<Row>, emailCol: string,
                           setups: nat -> Setup, outcomes: nat -> nat -> Attempt)
    requires HasColumn(rows, emailCol)
    ensures AllHaveColumn(RoundRobin.Buckets(rows, 1), emailCol)
    ensures var c := Campaign(ledger, BucketAddresses(RoundRobin.Buckets(rows, 1), emailCol), setups, outcomes, 1);
      var t := SmtpBatch(ledger, Addresses(rows, emailCol), setups(0), outcomes(0));
      c == Summary(t.ledger, t.delivered)
  {
    RoundRobin.OneBucket(rows);
    BucketsHaveColumn(rows, emailCol, 1);
    assert BucketAddresses([rows], emailCol) == [Addresses(rows, emailCol)];
  }
}

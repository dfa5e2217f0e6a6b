/**
 * What both mailer variants share: the script's session state (the set of
 * addresses already sent to and the progress counters), the outcome of one
 * send attempt, and the specification of the per-row send loop.
 */
module Dispatch {
  /**
   * `st.session_state`: the addresses sent to in this browser session, the
   * number of emails sent in the current run and the run's number of valid
   * recipients (the progress bar shows `emailsSent / totalEmails`).
   */
  class SessionState {
    var sentThisSession: set<string>
    var emailsSent: int
    var totalEmails: int

    /** First execution of the script: an empty set and no progress. */
    constructor ()
      ensures sentThisSession == {} && emailsSent == 0 && totalEmails == 0
    {
      sentThisSession, emailsSent, totalEmails := {}, 0, 0;
    }
  }

  /** A message as handed to the transport. */
  datatype Email = Email(sender: string, recipient: string, subject: string, body: string)

  /** What happened to one message. */
  datatype Attempt =
    | Delivered  // the transport accepted it
    | Refused    // the transport raised an exception that the per-message handler catches
    | Raised     // an exception escaped the per-message handler (see each variant)

  /** The outcome of a run as the script reports it. */
  datatype RunReport =
    | NoData                          // "Upload a CSV first."
    | NoAccounts                      // no sender configured
    | Done(total: nat, totalSent: nat)
    | Aborted(total: nat)             // an exception ended the script mid-run

  /**
   * The loop's state after some rows: the sent set, the addresses delivered
   * (in order), the batch positions for which a send was attempted and
   * handled, and whether an unhandled exception ended the loop.
   */
  datatype Tally = Tally(ledger: set<string>, delivered: seq<string>, attempted: seq<nat>, halted: bool)

  /** One row of the loop: skip a blank or already-sent address, else send. */
  function Step(t: Tally, address: string, pos: nat, outcome: Attempt): Tally
  {
    if t.halted || address == [] || address in t.ledger then t
    else match outcome
      case Delivered =>
        Tally(t.ledger + {address}, t.delivered + [address], t.attempted + [pos], false)
      case Refused => t.(attempted := t.attempted + [pos])
      case Raised => t.(halted := true)
  }

  /**
   * The loop over the first `n` rows of a batch, starting from the sent set
   * `ledger`; `addrs[i]` is row `i`'s stripped address and `outcome(i)` what
   * the transport does with row `i`'s message.
   */
  function Process(ledger: set<string>, addrs: seq<string>,
                   outcome: nat -> Attempt, n: nat): (t: Tally)
    requires n <= |addrs|
    ensures |t.delivered| <= |t.attempted| <= n
    ensures forall k :: 0 <= k < |t.attempted| ==> t.attempted[k] < n
  {
    if n == 0 then Tally(ledger, [], [], false)
    else Step(Process(ledger, addrs, outcome, n - 1),
              addrs[n - 1], n - 1, outcome(n - 1))
  }

  /** How one more row changes the loop's state. */
  lemma ProcessStep(ledger: set<string>, addrs: seq<string>,
                    outcome: nat -> Attempt, i: nat)
    requires i < |addrs|
    ensures var t, a := Process(ledger, addrs, outcome, i), addrs[i];
      Process(ledger, addrs, outcome, i + 1) ==
        if t.halted || a == [] || a in t.ledger then t
        else if outcome(i).Raised? then t.(halted := true)
        else if outcome(i).Delivered? then
          Tally(t.ledger + {a}, t.delivered + [a], t.attempted + [i], false)
        else t.(attempted := t.attempted + [i])
  {
  }

  function Elems(s: seq<string>): set<string>
  {
    set x | x in s
  }

  predicate Distinct(s: seq<string>)
  {
    forall i, j :: 0 <= i < j < |s| ==> s[i] != s[j]
  }

  /**
   * The sent set is the initial set plus the delivered addresses; those are
   * non-blank, pairwise distinct and were not in the initial set.
   */
  ghost predicate Accounted(before: set<string>, after: set<string>, delivered: seq<string>)
  {
    && after == before + Elems(delivered)
    && Distinct(delivered)
    && (forall k :: 0 <= k < |delivered| ==> delivered[k] !in before && delivered[k] != [])
  }

  /** A set that accounts for its deliveries has grown by exactly their number. */
  lemma AccountedGrowth(before: set<string>, after: set<string>, delivered: seq<string>)
    requires Accounted(before, after, delivered)
    ensures before <= after && |after| == |before| + |delivered|
  {
    DistinctCard(delivered);
    assert before * Elems(delivered) == {};
  }

  /** Two rounds of accounted deliveries compose. */
  lemma AccountedTrans(a: set<string>, b: set<string>, c: set<string>, d1: seq<string>, d2: seq<string>)
    requires Accounted(a, b, d1) && Accounted(b, c, d2)
    ensures Accounted(a, c, d1 + d2)
  {
    var d := d1 + d2;
    assert Elems(d) == Elems(d1) + Elems(d2);
    forall i, j | 0 <= i < j < |d| ensures d[i] != d[j] {
      if i < |d1| && j >= |d1| { assert d[i] in Elems(d1) && d[j] == d2[j - |d1|]; }
    }
    forall k | 0 <= k < |d| ensures d[k] !in a && d[k] != [] {
      if k >= |d1| { assert d[k] == d2[k - |d1|]; }
    }
  }

  /** At most one delivery per address: the loop keeps Accounted. */
  lemma {:induction false} ProcessAccounted(ledger: set<string>, addrs: seq<string>,
                                            outcome: nat -> Attempt, n: nat)
    requires n <= |addrs|
    ensures var t := Process(ledger, addrs, outcome, n); Accounted(ledger, t.ledger, t.delivered)
  {
    if n > 0 {
      ProcessAccounted(ledger, addrs, outcome, n - 1);
      var t := Process(ledger, addrs, outcome, n - 1);
      var a := addrs[n - 1];
      if !t.halted && a != [] && a !in t.ledger && outcome(n - 1).Delivered? {
        var d := t.delivered + [a];
        assert Elems(d) == Elems(t.delivered) + {a};
        forall i, j | 0 <= i < j < |d| ensures d[i] != d[j] {
          if j == |d| - 1 { assert d[i] in Elems(t.delivered); }
        }
      }
    }
  }

  lemma {:induction false} DistinctCard(s: seq<string>)
    requires Distinct(s)
    ensures |Elems(s)| == |s|
  {
    if s != [] {
      var m := |s| - 1;
      assert Distinct(s[..m]);
      DistinctCard(s[..m]);
      assert Elems(s) == Elems(s[..m]) + {s[m]};
      assert s[m] !in Elems(s[..m]);
    }
  }

  /**
   * After a batch the sent set has grown by exactly the number of messages
   * delivered, which is at most the number of rows.
   */
  lemma BatchGrowth(ledger: set<string>, addrs: seq<string>, outcome: nat -> Attempt)
        ensures var t := Process(ledger, addrs, outcome, |addrs|);
      ledger <= t.ledger && |t.ledger| == |ledger| + |t.delivered| && |t.delivered| <= |addrs|
  {
    var t := Process(ledger, addrs, outcome, |addrs|);
    ProcessAccounted(ledger, addrs, outcome, |addrs|);
    AccountedGrowth(ledger, t.ledger, t.delivered);
  }

  /** An address already in the sent set is never sent to again. */
  lemma AlreadySentIsSkipped(ledger: set<string>, addrs: seq<string>,
                             outcome: nat -> Attempt, a: string)
    requires a in ledger
    ensures a !in Process(ledger, addrs, outcome, |addrs|).delivered
  {
    ProcessAccounted(ledger, addrs, outcome, |addrs|);
  }

  /** Once an exception has escaped, the remaining rows change nothing. */
  lemma {:induction false} HaltedStays(ledger: set<string>, addrs: seq<string>,
                                       outcome: nat -> Attempt, i: nat, j: nat)
    requires i <= j <= |addrs|
    requires Process(ledger, addrs, outcome, i).halted
    ensures Process(ledger, addrs, outcome, j) == Process(ledger, addrs, outcome, i)
    decreases j
  {
    if i < j { HaltedStays(ledger, addrs, outcome, i, j - 1); }
  }

  /** Every attempt is for a row with a non-blank address. */
  ghost predicate AttemptsAddressed(addrs: seq<string>, t: Tally)
  {
    forall k :: 0 <= k < |t.attempted| ==>
      t.attempted[k] < |addrs| && addrs[t.attempted[k]] != []
  }

  /** Every delivery went to the address of one of the first `n` rows. */
  ghost predicate DeliveriesFromRows(addrs: seq<string>, n: nat, t: Tally)
    requires n <= |addrs|
  {
    forall k :: 0 <= k < |t.delivered| ==>
      exists i :: 0 <= i < n && t.delivered[k] == addrs[i]
  }

  /** Every delivery and every attempt belongs to a row with a non-blank address. */
  lemma {:induction false} AttemptsHaveAddresses(ledger: set<string>, addrs: seq<string>,
                                                 outcome: nat -> Attempt, n: nat)
    requires n <= |addrs|
    ensures AttemptsAddressed(addrs, Process(ledger, addrs, outcome, n))
    ensures DeliveriesFromRows(addrs, n, Process(ledger, addrs, outcome, n))
  {
    if n > 0 {
      AttemptsHaveAddresses(ledger, addrs, outcome, n - 1);
      var t := Process(ledger, addrs, outcome, n - 1);
      var a := addrs[n - 1];
      var t' := Process(ledger, addrs, outcome, n);
      forall k | 0 <= k < |t'.delivered|
        ensures exists i :: 0 <= i < n && t'.delivered[k] == addrs[i]
      {
        if k < |t.delivered| {
          assert t'.delivered[k] == t.delivered[k];
          var i :| 0 <= i < n - 1 && t.delivered[k] == addrs[i];
        } else {
          assert t'.delivered[k] == a;
        }
      }
      forall k | 0 <= k < |t'.attempted|
        ensures t'.attempted[k] < |addrs| && addrs[t'.attempted[k]] != []
      {
        if k < |t.attempted| {
          assert t'.attempted[k] == t.attempted[k];
        } else {
          assert !t.halted && a != [] && a !in t.ledger;
          assert t'.attempted == t.attempted + [n - 1];
        }
      }
    }
  }

  /**
   * The attempts are in row order, each row at most once, and none is for
   * an address that was in the sent set when the batch began.
   */
  ghost predicate AttemptsFresh(ledger: set<string>, addrs: seq<string>, t: Tally)
  {
    && (forall a, b :: 0 <= a < b < |t.attempted| ==> t.attempted[a] < t.attempted[b])
    && (forall k :: 0 <= k < |t.attempted| ==>
          t.attempted[k] < |addrs| && addrs[t.attempted[k]] !in ledger)
  }

  lemma {:induction false} AttemptsAreFresh(ledger: set<string>, addrs: seq<string>,
                                            outcome: nat -> Attempt, n: nat)
    requires n <= |addrs|
    ensures AttemptsFresh(ledger, addrs, Process(ledger, addrs, outcome, n))
  {
    if n > 0 {
      AttemptsAreFresh(ledger, addrs, outcome, n - 1);
      ProcessAccounted(ledger, addrs, outcome, n - 1);
      var t := Process(ledger, addrs, outcome, n - 1);
      var t' := Process(ledger, addrs, outcome, n);
      ProcessStep(ledger, addrs, outcome, n - 1);
      if t'.attempted != t.attempted {
        var a := addrs[n - 1];
        assert t'.attempted == t.attempted + [n - 1];
        assert a !in t.ledger && ledger <= t.ledger;
        forall x, y | 0 <= x < y < |t'.attempted| ensures t'.attempted[x] < t'.attempted[y] {
          if y == |t.attempted| { assert t.attempted[x] < n - 1; }
          else { assert t'.attempted[y] == t.attempted[y]; }
        }
        forall k | 0 <= k < |t'.attempted|
          ensures t'.attempted[k] < |addrs| && addrs[t'.attempted[k]] !in ledger
        {
          if k < |t.attempted| { assert t'.attempted[k] == t.attempted[k]; }
        }
      } else {
        assert t'.attempted == t.attempted;
      }
    }
  }

  /** The sent set only grows along a batch. */
  lemma {:induction false} LedgerGrows(ledger: set<string>, addrs: seq<string>,
                                       outcome: nat -> Attempt, n: nat, m: nat)
    requires n <= m <= |addrs|
    ensures Process(ledger, addrs, outcome, n).ledger <= Process(ledger, addrs, outcome, m).ledger
    decreases m
  {
    if n < m {
      LedgerGrows(ledger, addrs, outcome, n, m - 1);
    }
  }

  /** A row is attempted, if ever, when the loop reaches it. */
  lemma {:induction false} AttemptedWhenReached(ledger: set<string>, addrs: seq<string>,
                                                outcome: nat -> Attempt, p: nat, m: nat)
    requires p < m <= |addrs|
    ensures p in Process(ledger, addrs, outcome, m).attempted ==>
            p in Process(ledger, addrs, outcome, p + 1).attempted
    decreases m
  {
    if p + 1 < m {
      AttemptedWhenReached(ledger, addrs, outcome, p, m - 1);
      ProcessStep(ledger, addrs, outcome, m - 1);
    }
  }

  /**
   * A row whose address is in the sent set by the time the loop reaches it,
   * whether from before the batch or from a delivery earlier in the same
   * batch, gets no attempt: no message, no delay.
   */
  lemma SentEarlierIsSkipped(ledger: set<string>, addrs: seq<string>,
                             outcome: nat -> Attempt, n: nat, p: nat, m: nat)
    requires n <= p < m <= |addrs|
    requires addrs[p] in Process(ledger, addrs, outcome, n).ledger
    ensures p !in Process(ledger, addrs, outcome, m).attempted
  {
    LedgerGrows(ledger, addrs, outcome, n, p);
    ProcessStep(ledger, addrs, outcome, p);
    AttemptedWhenReached(ledger, addrs, outcome, p, m);
  }
}

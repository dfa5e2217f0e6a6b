# coldemailer dispatch core, in Dafny

A model of the dispatch logic of two Streamlit cold-email scripts, with proofs.

- `file.py` sends through SMTP with up to four sender accounts. It keeps the
  rows whose address is non-blank after `strip()` and deals them out
  round-robin: valid row `idx` goes to account `idx % len(accounts)`. Each
  account with a non-empty bucket then opens one SMTP session (connect,
  STARTTLS, login). It sends one message per row, skipping blank addresses
  and addresses already in the session's sent set.
- `app.py` sends through the Brevo transactional email API. It has a single
  verified sender and no session setup, and it sends every valid row.

Both scripts render the subject and body with `template.format(**ctx)`. The
context holds `name` and `company` only when that column was chosen and the
row has it. There is no default text: if the template names a key the
context lacks, formatting raises and `safe_format` returns the template
unchanged. Both keep the Streamlit session state: the set of addresses sent
to, the number sent in the current run, and the run's number of valid
recipients. A run resets the counter to 0 but keeps the set.

Modules, one per file:

- `Wrappers`: `Option`.
- `PyStr`: Python's `str.strip()` with `str.isspace()`'s character set.
- `Template`: the format-string subset, `format` and `safe_format`.
- `Recipients`: rows, the address of a row, the rendering context and the
  valid-row filter.
- `RoundRobin`: the buckets and the loop that fills them.
- `Dispatch`: the session state (a class whose fields the scripts update in
  place), the outcome of one send, and the specification `Process` of the
  per-row loop. `Process` is a left fold over the rows of a batch.
- `SendLoop`: message construction and one pass of the send loop. Both
  scripts run the same loop.
- `SmtpMailer`: `file.py`'s `send_batch_for_account` and its send button.
- `BrevoMailer`: `app.py`'s `send_batch_for_account` and its send button.

The network is an oracle passed in as a parameter:

- `Setup` says how far SMTP session setup got.
- `outcome(i)` says what happens to the message for row `i` of a batch:
  - `Delivered`: the transport accepted it.
  - `Refused`: an exception the per-message handler catches.
  - `Raised`: an exception that escapes that handler. In `file.py` this
    stands for `build_email` raising. The outer handler catches it, the
    batch ends and `quit` still runs. In `app.py` it stands for an exception
    other than `ApiException` from the API call. That exception leaves the
    send function and ends the run, and the session state keeps the updates
    made so far.

Each send method returns the messages it handed to the transport, in order,
and how many delays it took, so both can be stated in its postcondition.

## Model

| member | source | states |
|---|---|---|
| PyStr.Strip | file.py:90 | the stripped address is empty exactly when the cell is all whitespace; otherwise it starts and ends with non-whitespace and is the cell minus its leading and trailing whitespace |
| PyStr.LeadingSpace | file.py:90 | counts the maximal whitespace prefix: everything before it is whitespace and the next character is not |
| PyStr.TrailingSpace | file.py:90 | counts the maximal whitespace suffix, as for the prefix |
| Template.Format | file.py:47 | `template.format(**ctx)` succeeds exactly when the template is well formed (no unclosed `{`, no lone `}`) and every field names a key of the context |
| Template.SafeFormat | file.py:45-49 | the result is the rendered text when `format` succeeds and the template itself when it raises; it never fails |
| Template.FillSucceedsIff | file.py:47 | filling a parsed template succeeds if and only if every field names a key in the context |
| Template.MissingKeyKeepsTemplate | app.py:24-28 | a well-formed template with a field whose key is missing from the context comes back verbatim |
| Template.MalformedKeepsTemplate | file.py:45-49 | a template with an unclosed `{` or a lone `}` comes back verbatim under any context |
| Template.BracelessRendersItself | app.py:24-28 | text without braces formats to itself under any context |
| Template.ParseUnparse | file.py:47 | writing pieces back as format-string text and parsing that text gives the same pieces (round trip) |
| Template.ParseWritten | file.py:47 | a written piece in front of any text parses back as that piece in front of the text's own parse, failing exactly when the rest fails |
| Template.EscapeRoundTrip | file.py:47 | any text with its braces doubled renders back to the original text |
| Template.FillAppend | file.py:47 | rendering a concatenation renders each part, and fails when either part fails |
| Template.GreetingParses | file.py:192 | the default greeting `Hi {name}` parses as literal text followed by the field `name` |
| Template.GreetingWithoutName | file.py:192 | with no `name` in the context the greeting is sent unrendered |
| Template.GreetingWithName | file.py:192 | with `name` bound to `Ada` the greeting renders as `Hi Ada` |
| Recipients.Address | file.py:90-92 | a row's address is blank exactly when its cell is all whitespace |
| Recipients.BuildContext | file.py:36-42 | the context has only the keys `name` and `company`; each is present if and only if its column was chosen (non-empty) and the row has it, and then holds that cell |
| Recipients.UnsuppliedFieldKeepsTemplate | file.py:36-52 | a template naming a key the row's context does not supply is sent as typed |
| Recipients.SuppliedFieldsRender | app.py:63-70 | a well-formed template whose fields are all supplied by the context renders without error |
| Recipients.SuppliedIsResolvable | file.py:36-47 | a key the context binds is one `format` fills from it |
| Recipients.ValidRows | file.py:267-268 | every kept row has a non-blank address and there are no more kept rows than rows |
| Recipients.ValidRowsAppend | file.py:267 | filtering a concatenation is the concatenation of the filtered parts, so table order is kept |
| Recipients.ValidRowsCount | app.py:187-188 | each row occurs among the kept rows exactly as often as in the table if its address is non-blank, and not at all otherwise |
| Recipients.ValidRowsFromTable | file.py:267-268 | every kept row is a row of the table |
| Recipients.KeptAddressFromTable | app.py:187-188 | the address of each kept row is the address of a row of the table |
| RoundRobin.Distribute | file.py:278-280 | the loop that appends row `idx` to bucket `idx % n` produces exactly `Buckets(rows, n)` |
| RoundRobin.BucketAt | file.py:278-280 | bucket `k` has an element `j` if and only if `k + j*n` is a row index, and that element is `rows[k + j*n]`, so each bucket keeps the rows' relative order |
| RoundRobin.Placement | file.py:280 | row `idx` is at position `idx / n` of bucket `idx % n` |
| RoundRobin.Partition | file.py:278-280 | the bucket sizes add up to the number of rows, and the buckets pooled together are the rows as a multiset |
| RoundRobin.BucketElements | file.py:280 | every element of a bucket is one of the rows |
| RoundRobin.OneBucket | file.py:278-280 | with one account, its bucket is all rows in order |
| RoundRobin.FiveOverTwo | file.py:278-280 | five rows over two accounts give `[a, c, e]` and `[b, d]` |
| Dispatch.SessionState.constructor | file.py:13-18 | the first execution of the script starts with an empty sent set and a zero counter |
| Dispatch.Process | file.py:88-128 | a batch delivers at most as many messages as it attempts, attempts at most one per row, and each attempt is for a row of the batch |
| Dispatch.ProcessAccounted | file.py:94-118 | after a batch the sent set is the old set plus the delivered addresses; these are non-blank, pairwise distinct and were not in the old set |
| Dispatch.AccountedGrowth | file.py:112-118 | when the set accounts for the deliveries, it grew by exactly their number |
| Dispatch.AccountedTrans | file.py:285-304 | two batches in a row still account for all their deliveries |
| Dispatch.BatchGrowth | file.py:112-118 | after a batch the set contains the old set and grew by exactly the number delivered, which is at most the batch length |
| Dispatch.AlreadySentIsSkipped | file.py:95-96 | an address already in the set is not delivered to again |
| Dispatch.HaltedStays | file.py:130-131 | once an exception has escaped the per-message handler, the remaining rows change nothing |
| Dispatch.AttemptsHaveAddresses | file.py:90-92 | every attempt is for a row with a non-blank address, and every delivery went to the address of a row of the batch |
| Dispatch.AttemptsAreFresh | file.py:88-96 | attempts are made in row order, for each row at most once, and never for an address that was in the set when the batch began |
| Dispatch.LedgerGrows | file.py:112-114 | along a batch the sent set only grows |
| Dispatch.AttemptedWhenReached | file.py:88-124 | a row that is ever attempted was attempted on the loop's pass over that row |
| Dispatch.SentEarlierIsSkipped | file.py:94-96 | a row whose address is in the set when the loop reaches it, whether from before the batch or from a delivery earlier in the same batch, gets no attempt, so no message and no delay |
| SendLoop.BuildEmail | file.py:26-59 | the message goes from the sender to the recipient; its subject and body are each the template passed through `safe_format` with the row's context, so the rendered text whenever `format` succeeds and the template verbatim otherwise |
| SendLoop.NoNameColumnSubjectVerbatim | file.py:38-51 | with no name column, a subject that uses `{name}` is sent as typed |
| SendLoop.LoopFinished | file.py:88-131 | a loop that an escaped exception stopped early is in the state the loop specification gives after the last row |
| SendLoop.SendRow | file.py:88-128 | one pass of the loop moves the set, the count, the messages handed over and the delays from the state after `i` rows to the state after `i + 1` rows; the counter grows by the number sent |
| SmtpMailer.SmtpBatch | file.py:83-88 | when connect, STARTTLS or login fails, the batch delivers and attempts nothing; otherwise it attempts at most one message per row and delivers at most what it attempts |
| SmtpMailer.SendBatchForAccount | file.py:62-140 | the new set, the count returned, the counter, the messages and the number of delays are those of `SmtpBatch`; `quit` is called once exactly when the server object was created |
| SmtpMailer.Campaign | file.py:285-304 | the deliveries of the first `n` accounts number at most the rows in their buckets |
| SmtpMailer.CampaignAccounted | file.py:94-118 | after any number of accounts the set is the initial set plus every address delivered to; those are non-blank, pairwise distinct and were not in the initial set |
| SmtpMailer.FailedSetupSkipsAccount | file.py:83-86 | an account whose connect, STARTTLS or login fails leaves the run's set and deliveries as they were |
| SmtpMailer.CampaignGrows | file.py:285-304 | one more account keeps the deliveries so far as a prefix and only adds to the set |
| SmtpMailer.EarlierDeliveriesStand | file.py:285-304 | later accounts never undo earlier ones: the deliveries after `i` accounts are a prefix of those after `m >= i`, and the set only grows |
| SmtpMailer.SendBuckets | file.py:282-304 | the loop over the buckets leaves the set and the total sent of `Campaign`, with the counter equal to the total |
| SmtpMailer.StartSending | file.py:256-307 | without data or without accounts it reports so and changes nothing; otherwise it sets the total to the number of valid rows, resets the counter, keeps the set, and reports the total sent by `Campaign` over the round-robin buckets; the counter never exceeds the total |
| SmtpMailer.RunTotals | file.py:304-307 | a run sends at most one message per valid row, never to an address already in the set, and the set grows by exactly the total sent |
| SmtpMailer.CampaignFromBuckets | file.py:285-304 | every delivery went to one of the addresses of the buckets sent |
| SmtpMailer.RunSendsToTableRows | file.py:267-304 | every address a run sends to is the non-blank address of a row of the table |
| SmtpMailer.NoSessionNoMail | file.py:83-86 | if no account gets its session set up, a run sends nothing and the set is unchanged |
| SmtpMailer.OneAccountSendsAll | file.py:278-292 | with a single account, a run is that account's batch over every valid row |
| BrevoMailer.SendBatchForAccount | app.py:32-93 | the new set, the count, the counter, whether an exception escaped, the messages and the number of delays are those of the send loop over all rows |
| BrevoMailer.Report | app.py:199-212 | the run reports success with the total sent exactly when no exception escaped, and always carries the number of valid rows |
| BrevoMailer.StartSending | app.py:177-212 | without data or without a sender address it reports so and changes nothing; otherwise every valid row goes to the one sender, the total is the number of valid rows, the counter is reset and the set kept |
| BrevoMailer.RunDeliversEachAddressOnce | app.py:55-93 | a run delivers to each address at most once, only to table addresses not already in the set, at most one per valid row, and the set grows by exactly the number sent |
| BrevoMailer.SentAddressNotResent | app.py:60-61 | a row whose address is already in the set is never attempted |

## Left out

- The Streamlit UI: widgets, previews (`file.py:235-249`, `app.py:160-172`), status and error messages, the progress bar's fraction. The bound `emails_sent <= total_emails` is proved instead of the fraction.
- pandas: reading the CSV and `NaN` cells. A row is a map from column name to cell text; a `NaN` cell would be the text `nan` in Python.
- `smtplib`, `ssl`, `EmailMessage` and the Brevo SDK are oracles (`Setup` and `outcome`). The message is an `Email` record with sender, recipient, subject and body.
- `time.sleep` is counted, not timed: one delay per attempt (delivered or refused) when the delay is positive, none after a skip.
- The API key from the environment (`app.py:47`) and the account collection UI (`file.py:207-227`). Accounts are a parameter.
- `int(account_config["smtp_port"])` (`file.py:77`) runs before the `try`. A non-numeric port ends the whole script. The model does not cover it: `Account.smtpPort` is never parsed.
- An address column missing from a row is excluded by the precondition `HasColumn`. The column is picked from the table's own columns, so every row has it.
- Template.Resolvable: a field with a conversion, format spec, attribute or index counts as a failure in the model. Python renders some of these when the key is bound (`{name!r}`, `{name:>10}`, `{name[0]}`) and fails on others too (`{name.x}`, as a cell is a string without that attribute, or `{name:d}`). Every other field name fails in both, because the context only has `name` and `company`.
- Dispatch.SessionState.constructor: sets `totalEmails` to 0. The scripts create `total_emails` only at the first run.
- BrevoMailer.SendBatchForAccount: its returned messages are only those the API accepted or refused. A message whose call raised some other exception was handed over, but it is not in the returned list.

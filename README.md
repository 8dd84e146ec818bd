# parse-email: deciding which Asana notification mails are finished

This project models the `parse-email` console command of the
parse-emails-for-completed-tasks application. The command searches an
IMAP inbox for mails from `mail.asana.com`. It stops with
"Mailbox is empty" when the search finds nothing. Otherwise it handles
every mail id in search order. For each mail it prints the subject and
extracts an Asana task id from the HTML body with the pattern
`taskId': '(?<digit>\d+)`. It then requests
`https://app.asana.com/api/1.0/tasks/<id>` and passes the mail to
`processEmailForCompletedTask` in two cases: the request fails with a
client error (4xx), or the task's `data.completed` is true.
`processEmailForCompletedTask` only prints one line.

The model has four modules:

- `Wrappers` (`wrappers.dfy`): the `Option` type.
- `TaskIdExtraction` (`extraction.dfy`): what `preg_match` captures. A match
  starts where the literal `taskId': '` is followed by a digit. The leftmost
  match wins, and the greedy `\d+` takes the whole run of digits.
  `ExtractTaskId` is proved to agree with this reading, and the reading is
  proved to determine the result.
- `AsanaLookup` (`lookup.dfy`): the task URL with its inverse, and the
  outcome of the request as an oracle value `LookupResult`. A 2xx is
  `Success(completed)`, a caught `ClientException` is `ClientError(code)`,
  and anything else is `OtherFailure`. `Resolve` gives the decision and the
  informational lines.
- `ParseEmailCommand` (`command.dfy`): `ParseEmail` handles one mail.
  `Run` and `HandleAll` specify `handle`. The method `Handle` is the loop
  over the ids, proved equal to `Run`. The lemmas state what a run does.

The mailbox and the HTTP client are inputs. `fetch: MailId -> Mail` gives
the subject and HTML body of a mail. `lookup: string -> LookupResult` gives
what the request on a URL comes to. Console output is modelled as the
sequence of printed lines. A mail is "selected" when it reaches
`processEmailForCompletedTask`, which is the line
"doing something with this email".

This command handles mails from Asana only and moves no mail. Every client
error selects the mail, whatever its code. A failure that is not a
`ClientException` is not caught. It leaves `handle`, so the remaining ids are
not handled (`RunEnd.Uncaught`).

## Model

| member | source | states |
|---|---|---|
| TaskIdExtraction.DigitRun | app/Console/Commands/parseEmail.php:90 | the greedy `\d+`: every character in the counted run is a digit, the run stays inside the body, and the character after it (if any) is not a digit |
| TaskIdExtraction.FindMatch | app/Console/Commands/parseEmail.php:90 | the reported position is a match of the pattern and no match starts between the search start and it; None means no match at or after the search start |
| TaskIdExtraction.ExtractTaskId | app/Console/Commands/parseEmail.php:90-94 | no task id exactly when the pattern matches nowhere in the body (no `taskId': '` followed by a digit); otherwise a non-empty id made only of decimal digits |
| TaskIdExtraction.ExtractTaskIdCaptures | app/Console/Commands/parseEmail.php:90-94 | the extracted id starts right after the leftmost `taskId': '` that is followed by a digit and is a maximal digit run: the next body character, if any, is not a digit |
| TaskIdExtraction.DigitRunUnique | app/Console/Commands/parseEmail.php:90 | a maximal digit run is determined by where it starts |
| TaskIdExtraction.CapturesDeterminesExtraction | app/Console/Commands/parseEmail.php:90-94 | any id satisfying the leftmost-match, greedy-capture reading is exactly the id extracted, so the contract of ExtractTaskId determines it |
| TaskIdExtraction.ExtractEmbedded | app/Console/Commands/parseEmail.php:90-94 | text without a single quote, then the literal, a digit run and text not starting with a digit: the extracted id is exactly that digit run |
| AsanaLookup.TaskIdOfUrl | app/Console/Commands/parseEmail.php:98-100 | a URL that is read back as a task id is the task endpoint followed by that id |
| AsanaLookup.TaskUrlRoundTrip | app/Console/Commands/parseEmail.php:98-100 | reading the task id back out of the URL built for it gives that id |
| AsanaLookup.TaskUrlInjective | app/Console/Commands/parseEmail.php:98-100 | different task ids are requested on different URLs |
| AsanaLookup.ExtractedTaskUrlShape | app/Console/Commands/parseEmail.php:90-100 | the URL for an extracted id is the endpoint followed by at least one character, all of them digits, and nothing else |
| AsanaLookup.Resolve | app/Console/Commands/parseEmail.php:97-118 | selected exactly on a client error (any code) or a completed task; escapes exactly on a failure that is not a client error; the no-access line is printed exactly for a 403, the completed line exactly for a completed task, and no line in every other case |
| AsanaLookup.ClientErrorCodeOnlyChangesNotes | app/Console/Commands/parseEmail.php:107-113 | every client error selects without escaping; two codes that are both 403 or both not 403 give the same decision and lines |
| ParseEmailCommand.ParseEmailDecision | app/Console/Commands/parseEmail.php:84-119 | no request exactly when the body has no match; otherwise the request is the task URL of the extracted id; selected exactly on a client error or `completed` true, never together with an escaping failure; output starts with the empty line and the subject line, is then "no task id found" when there is no id, and ends with the sink line when selected |
| ParseEmailCommand.SinkLineOncePerSelection | app/Console/Commands/parseEmail.php:111-123 | handling one mail prints the `processEmailForCompletedTask` line once if the mail is selected and never otherwise |
| ParseEmailCommand.NoTaskIdIgnoresLookup | app/Console/Commands/parseEmail.php:90-93 | a mail without a task id is handled the same whatever the lookup would answer, and it is neither selected nor failing |
| ParseEmailCommand.Handle | app/Console/Commands/parseEmail.php:62-82 | the loop's result is the run specification: an empty search stops, else ids are handled in order until one fails uncaught |
| ParseEmailCommand.UncaughtEndsRun | app/Console/Commands/parseEmail.php:77-79 | once a failure escapes, the ids after it change nothing |
| ParseEmailCommand.HandledInSearchOrder | app/Console/Commands/parseEmail.php:77-79 | the handled ids are a prefix of the search result, in search order |
| ParseEmailCommand.HandledUpToEnd | app/Console/Commands/parseEmail.php:77-79 | a finished run handled every id of the search result; a run that did not finish ended on the last id it handled |
| ParseEmailCommand.EscapesOnlyAtEnd | app/Console/Commands/parseEmail.php:77-113 | a handled mail's failure escaped exactly when it is the last one handled and the run did not finish |
| ParseEmailCommand.SelectedAreSubsequence | app/Console/Commands/parseEmail.php:77-79 | the selected ids are an in-order subsequence of the handled ids |
| ParseEmailCommand.SelectedExactlyWhenCompleted | app/Console/Commands/parseEmail.php:77-118 | an id is selected exactly when it was handled and its mail is selected |
| ParseEmailCommand.SelectedOnce | app/Console/Commands/parseEmail.php:77-79 | with a search result free of duplicates, no id is selected twice |
| ParseEmailCommand.SinkLinesCountSelections | app/Console/Commands/parseEmail.php:77-123 | the run prints the `processEmailForCompletedTask` line exactly once per selected id |
| ParseEmailCommand.EmptySearchStops | app/Console/Commands/parseEmail.php:69-71 | the run stops as empty exactly when the search is empty, with nothing handled or selected and "Mailbox is empty" printed |
| ParseEmailCommand.FinishesExactlyWithoutUncaught | app/Console/Commands/parseEmail.php:77-113 | a run finishes exactly when the search is non-empty and no mail fails uncaught, and then every id was handled once, in search order |
| ParseEmailCommand.RunSelection | app/Console/Commands/parseEmail.php:62-79 | the selected ids are an in-order subsequence of the search result and of the prefix of it that was handled, and the sink line is printed once per selected id |
| ParseEmailCommand.CompletedTaskExample | app/Console/Commands/parseEmail.php:90-118 | a body carrying `taskId': '987654321` is looked up on the endpoint plus `987654321` and selected exactly when that task is completed |

## Left out

- The IMAP session: constructing `Mailbox`, `searchMailbox`, `getMail`, `setAttachmentsIgnore` and `decodeMimeStr` belong to an I/O library. The search result, and each mail's decoded subject and HTML body, are inputs.
- The `ConnectionException` path of the search (print and `die`): it is I/O failure handling of the mail library.
- The `$this->mailbox` and `$this->client` fields: they hold I/O handles only, so `handle` is modelled as a method without object state.
- Guzzle request mechanics, the bearer-token header and `json_decode`: the outcome of a request is the oracle value `LookupResult`. `Success` carries `data.completed` as a boolean; a body without that field is not modelled.
- `lookup` is one function for the whole run, so the same URL gets the same answer each time it is requested; a server whose answer changes between two requests is not modelled.
- `ClientError` carries any integer code; the HTTP client raises it for a 4xx only, and the model does not restrict the code.
- `preg_match` returning `false` on an engine error, and an HTML body that is null (a mail with no HTML part): the body is a string, and a match attempt always succeeds or fails.
- Text encoding: each character of a body stands for one byte of the PHP string, and `\d` is the ASCII digits, as without the `u` modifier.
- `env()` configuration: configuration only.
- The exit status and the framework's report of an uncaught exception: process-level effects outside the command.
- app/Providers/EventServiceProvider.php: framework wiring with an example listener map and no logic.
- Mails from other senders and moving mails to folders: this code does neither.

# Face_perception: an attendance server, verified

The repository is a small HTTP server that keeps an attendance ledger, the CGI program it hands
requests to, and the MySQL client headers it is built with. This project models the code in
Dafny and proves what it does over whole inputs and whole runs.

| file | what it models |
|---|---|
| `CStrings.dfy`, `Wrappers.dfy` | C strings in character buffers, `memset`, `strcpy`, `strcasecmp`; the shared `Option` type |
| `Decimal.dfy` | `sprintf("%d")` and `atoi` |
| `FormText.dfy` | the form text `k1=name&k2=id` and its two parsers, `get_string` and `recv_str` |
| `WorkTime.dfy` | `user_node`, the time worked and the printed duration |
| `Ledger.dfy` | `class server_http` as `ServerHttp`: lookup, the carry loop, `send_vector` |
| `LedgerRuns.dfy` | whole runs of submissions |
| `HttpHead.dfy` | the socket as a byte stream, `get_line`, `clear_head` |
| `CgiRelay.dfy` | the head and body loops of `exec_cgi`, and the environment it composes |
| `RequestLine.dfy` | `get_comm` and `get_path_method_query` |
| `Server.dfy` | one connection from its first byte to its last (`Accept`) |
| `Connections.dfy` | whole connections stated of the bytes alone: printed requests in, and what `Accept` does with each |
| `MutexDiscipline.dfy` | every interleaving of threads running `send_vector` |
| `LittleEndian.dfy` | the byte-order loads and stores |
| `TrailingSpace.dfy` | both versions of `skip_trailing_space` |
| `TimespecArithmetic.dfy` | deadlines: `set_timespec_nsec`, `cmp_timespec`, `diff_timespec` |
| `Widths.dfy`, `Remainders.dfy` | the unsigned integer types, and quotients and remainders for the last three |

Code that updates things in place is written the same way here: the server and the socket are
classes, buffers are arrays, and each loop is a loop with invariants, proved against a function
of its inputs. `recv` takes the next byte of a sequence, and at the end of it returns 0 and
leaves the character it was given alone; writes to the CGI pipe are appended to a sequence; the
clock reading, its printed form and the results of `stat` and `fopen` are parameters, and so are
the sizes of a pointer, of `int` and of `time_t` where the code depends on them
(`mysql/mysql_lib/include/my_config.h` has four bytes for each). Records are values because the
vector stores copies. Integers are unbounded except where a width is written out: the fixed-width
codecs, `ulonglong`, `time_t` in deadlines, and conversions to `int` (`FitsInt`).

## What holds, and exactly when

- **A ledger is what was submitted.** After any run from the empty ledger there is one record per
  submitted (name, id), in order of first visit; it holds the first arrival, the latest departure
  and a total that is the sum of all times since that arrival. The class keeps the run in a ghost
  `history`, and its invariant says that the vector is the ledger of that run. The total is right
  even when a clock reading lies before the arrival. The carry loop never borrows, so over any run
  a record is canonical if and only if the time added up has not fallen below a whole minute that
  it once reached: visits at 5 and 4 leave -1 second, and a third at 7 makes that 1 again.
- **The line of a departure** is name, id, first arrival, this departure and the duration of all
  visits, for every run; "Ann 7 A B 0:0:1:5" for one who leaves 65 seconds after arriving.
- **`get_string` stays within its text** if and only if the text has an `&` with an `=` somewhere
  before it. Otherwise the third scan starts at the terminator, as on "a=b". Its `memset` is given
  the size of a pointer, so what it writes stays within the copy if and only if the copy is as long
  as a pointer. With four bytes that fails for the text "=&" alone, with eight also for "a=b&c"; the
  fields it returns do not depend on that.
- **`get_string` and `recv_str` agree** if and only if the first value has no `=` and a second `=`
  follows the `&`; on "a=b=c&d=e" they do not.
- **`get_line` returns, within its buffer,** if and only if the stream is at its end or the line
  ends before the end of the stream and before the buffer is full. On "GET" and nothing more it
  never returns. Whatever ends a line, the byte after it is read as well.
- **A `Content-Length` value is read** if and only if white space follows the colon or the number
  begins with a zero: the code always skips the character after the colon, so
  "Content-Length:42" is read as 2 and "Content-Length:042" as 42. And the field is recognised if
  and only if its name is spelled exactly like that: "content-length: 42" is overlooked. RFC 7230,
  section 3.2, makes the white space optional and the case irrelevant. A field of any other name
  leaves the length alone.
- **The body relay** always writes as many bytes as were declared: the first bytes of the body, and
  when the body is shorter, all of it and then copies of its last byte.
- **A request line whose words are spaced freely** always gives its method. The url is read with at
  most one space before the method; with more, the end of the method is taken for it, as "T" from
  "  GET /a V". The version is read if and only if no space is before the method and one after it:
  the length of the words is counted, that of the spaces is not.
- **A GET query of 499 characters or more** fits its own buffer, but with "QUERY_STRING:" before it
  not the one in the child process.
- **A POST is checked in by its url.** The query of a method other than GET is the whole url, so
  the submission comes from there and the body goes only to the CGI program. The path of that
  program is the whole url too, form and all, below "htdocs".
- **A request for a file** gets the file below "htdocs", with "index.html" after a slash and
  "/index.html" after a directory; any method but GET and POST is such a request too.
- **Lock discipline.** A program is safe for any number of threads if and only if, run alone, no
  path through it locks what it holds, unlocks what it does not, writes without the mutex what
  needs it, or ends holding it; `send_vector` is such a program when the writes to `size`, to the
  length of the vector and to the struct of `localtime` are what needs it, and is not when the
  writes to stored records are counted too. From every state that such threads reach, all can still finish.
  Holding the mutex around a call can deadlock if and only if the
  callee may lock: the rule that the comment in `send_vector` states. With the outer lock that is
  commented out there, a thread that enters the departure branch never finishes.
- **A deadline is exact** if and only if no 64-bit operation wrapped and its seconds fit `time_t`,
  which with four bytes ends in 2038. The difference of two deadlines armed from the same clock
  reading is the difference of the delays, even when one of them wrapped at 64 bits, if and only if
  both second counts lose the same multiple of the range of `time_t` and differ by less than half
  of it; with eight bytes that always holds.

## Model

| member | source | states |
|---|---|---|
| `LedgerRuns.RunIsLedger` | server/server_http.h:539-605 | over any run from the empty ledger, every record reflects exactly its person's visits (first arrival, latest departure, summed time, carried seconds), everyone submitted is found, records are in order of first visit |
| `LedgerRuns.KeysOfRun` | server/server_http.h:94-111 | a person is found exactly when submitted, by the only record with that name and id |
| `LedgerRuns.CanonicalInRun` | server/server_http.h:113-132 | over any run, a person's record is canonical if and only if the time added up by that person's visits is in no lower minute at the end than after any visit before; a clock that never runs behind the first visit suffices |
| `LedgerRuns.SecondsAreRest` | server/server_http.h:113-132 | the seconds are the time added up by the visits, less the most whole minutes ever reached |
| `LedgerRuns.SecondsNeverNegative` | server/server_http.h:113-132 | with such a clock the carried seconds stay between 0 and 59 |
| `LedgerRuns.BorrowExamples` | server/server_http.h:113-132 | a run whose record is not canonical, and one visit more that makes its seconds positive again |
| `LedgerRuns.LineOfVisit` | server/server_http.h:181-196 | over any run, a known person's next visit composes name, id, first arrival, this departure and the exact duration of all visits, in that order with single spaces; a first visit composes nothing |
| `LedgerRuns.LineExample` | server/server_http.h:181-196 | the line of a person who leaves 65 seconds after arriving |
| `LedgerRuns.SubmitKeepsLedger` | server/server_http.h:555-603 | one submission turns the ledger of a run into the ledger of the longer run |
| `LedgerRuns.DepartureReflects` | server/server_http.h:560-570 | one more visit of a known person keeps the record true: arrival kept, departure replaced, time added |
| `LedgerRuns.OthersUnchanged` | server/server_http.h:555-603 | a submission changes no record of another person |
| `LedgerRuns.NextIsRepresentable` | server/server_http.h:113-132 | a clock that never runs behind the first visit, with times and days that fit an int, keeps every conversion to int defined |
| `Ledger.ServerHttp.constructor` | server/server_http.h:38-40 | the ledger of the empty run |
| `Ledger.ServerHttp.FindId` | server/server_http.h:94-111 | returns the first matching record, or the end and one more in `size` |
| `Ledger.ServerHttp.CalculatWorkTime` | server/server_http.h:113-132 | the minute-at-a-time carry loop terminates with the quotients and remainders of the new total, and touches no other record |
| `Ledger.ServerHttp.IntToString` | server/server_http.h:135-180 | the four fields in decimal, joined by colons, through a buffer that is large enough |
| `Ledger.ServerHttp.RecordDeparture` | server/server_http.h:560-583 | sets departure, adds the time since arrival, leaves `start_time` as the first submission set it, composes the line |
| `Ledger.ServerHttp.SendVector` | server/server_http.h:539-605 | the new vector is the one submission of the parsed name and id applied to the old one; `size` counts it, the history grows by it, and a known person's line is composed |
| `Ledger.PrintInto` | server/server_http.h:135-139 | the printed int and its NUL fit the 255-byte buffer |
| `WorkTime.WorkedIsHonest` | server/server_http.h:113-132 | the total grows by the elapsed time, even a negative one; canonical afterwards if and only if the seconds did not drop below zero |
| `WorkTime.WorkedSeconds` | server/server_http.h:113-132 | the seconds afterwards are the sum if that is below a minute, its remainder otherwise, whatever the other fields are |
| `WorkTime.CanonicalIsDivision` | server/server_http.h:113-132 | day, hour, minute and second of a canonical record are the quotients and remainders of its total |
| `WorkTime.ReadUndoesDuration` | server/server_http.h:140-180 | reading back the four colon-separated decimals gives the same fields |
| `WorkTime.DurationIsFourDecimals` | server/server_http.h:140-180 | the text split at its colons is exactly the decimals of days, hours, minutes and seconds |
| `WorkTime.DurationsAreFaithful` | server/server_http.h:140-180 | canonical durations print equally if and only if the totals are equal |
| `Decimal.AtoiOfPrint` | server/server_http.h:135-139 | atoi undoes printing, whatever blanks come before and non-digits after |
| `Decimal.PrintIsTheNumeral` | server/server_http.h:135-139 | what is printed is the one decimal numeral of the number: no zero in front, nothing around it |
| `Decimal.AtoiOfSigned` | server/server_http.h:416 | atoi reads either sign, after any of the six white-space characters |
| `FormText.ScanPastEquals` | server/server_http.h:64-65 | the pointer loop stops one past the next '=' or at the terminator |
| `FormText.GetString` | server/server_http.h:55-79 | returns the two fields without reading past the terminator, and fixes every byte it writes to the copy and after it, for any size of a pointer |
| `FormText.WritesStayInCopy` | server/server_http.h:59-71 | those writes stay within the copy if and only if it is as long as a pointer; with four bytes, for every text but "=&" |
| `FormText.GetStringUndoesPrinting` | server/server_http.h:55-79 | from k1=name&k2=id it extracts exactly name and id |
| `FormText.StaysInsideText` | server/server_http.h:64-74 | the scans stay inside the text if and only if an '&' has an '=' before it |
| `FormText.SplitInPlace` | cgi_bin/show.cpp:13-35 | the loop: both pointers, and every '&' before the second '=' made a NUL |
| `FormText.OverrunExamples` | server/server_http.h:60-74 | a text whose third scan reads past the terminator, and for either size of a pointer one whose copy is too short |
| `FormText.RecvStr` | cgi_bin/show.cpp:10-35 | the pointers it sets, and the buffer with every '&' before the second '=' made a NUL and nothing else changed |
| `FormText.WhenParsersAgree` | cgi_bin/show.cpp:10-35 | the two parsers extract the same fields if and only if the first value has no '=' and a second '=' follows the '&' |
| `FormText.ParsersDisagreeExample` | cgi_bin/show.cpp:10-35 | a text on which the two parsers disagree |
| `FormText.ParsersAgreeOnForms` | cgi_bin/show.cpp:10-35 | both recover name and id of a printed form whose name has neither '=' nor '&' |
| `HttpHead.Socket.Recv` | server/server_http.h:206 | the next byte, or at the end of the stream 0 and the old character |
| `HttpHead.ReadUpToEnd` | server/server_http.h:200-218 | stores the line and stops on the byte after the one that ended it; its values are those that the rounds end with |
| `HttpHead.GetLine` | server/server_http.h:198-228 | returns the line with one LF for its ending, NUL terminated, rest of the buffer unchanged, and leaves the stream after the ending |
| `HttpHead.LineFitsIsExact` | server/server_http.h:204-227 | get_line returns within its buffer if and only if the line fits |
| `HttpHead.RoundsReadTheLine` | server/server_http.h:204-227 | when the line fits, whatever state the rounds end in has the line's length as terminator index and the rest of the stream as input |
| `HttpHead.LineExamples` | server/server_http.h:204-227 | a cut-off line and a line too long for its buffer: get_line does not return within its buffer |
| `HttpHead.LineWithItsEnd` | server/server_http.h:204-227 | for each of LF, CR and NUL as the end of a line: what comes back, and that the byte after the end is consumed too |
| `HttpHead.CrlfLine` | server/server_http.h:204-227 | a CRLF line comes back with one LF and exactly its bytes are consumed |
| `HttpHead.ClearHead` | server/server_http.h:381-390 | stops after the first line that is only an LF or comes back empty |
| `HttpHead.SkipHeadOfFileRequest` | server/server_http.h:259-268 | the file branch skips the same head |
| `HttpHead.HeadIsConsumed` | server/server_http.h:381-390 | on any CRLF lines, a blank line and a body, the stream is left at the first body byte |
| `HttpHead.HeadMayBreakOff` | server/server_http.h:381-390 | a stream that ends after whole lines, with no blank one, is read to its end |
| `CgiRelay.ReadLengthHead` | server/server_http.h:409-417 | consumes the head and returns the length of its last length line |
| `CgiRelay.ReadHeadOfPrinted` | server/server_http.h:409-417 | on any printed head: the declared length, and the stream at the first body byte |
| `CgiRelay.DeclaredOnce` | server/server_http.h:415-416 | the last line that begins with "Content-Length:" decides |
| `CgiRelay.LengthIsRead` | server/server_http.h:409-416 | for every white space, digit string and trailing white space: the number is read if and only if white space follows the colon or its first digit is a zero |
| `CgiRelay.SignedLengthIsRead` | server/server_http.h:416 | a number of either sign is read after white space |
| `CgiRelay.OneSpellingCounts` | server/server_http.h:415 | of all spellings of the name, in any case, only one is recognised |
| `CgiRelay.OtherFieldsAreIgnored` | server/server_http.h:415 | a field of any other name, and a line that is no field, leaves the length as it was |
| `CgiRelay.FieldIsHonoured` | server/server_http.h:409-416 | both together: when a length field in any spelling, spacing and digits sets the declared length |
| `CgiRelay.LengthExamples` | server/server_http.h:409-416 | three fields that declare 42, read as 2, read whole, and overlooked |
| `CgiRelay.RelayBody` | server/server_http.h:507-518 | what is written to the pipe and what is left of the stream, for every declared length |
| `CgiRelay.RelayIsExact` | server/server_http.h:513-517 | the bytes relayed are the first n of the body, or the whole body and then copies of its last byte when it is shorter |
| `CgiRelay.ComposeEnvironment` | server/server_http.h:475-498 | two strings: the method, then the query for GET and otherwise a length that reads back, each through its buffer |
| `CgiRelay.EnvironmentIsReadBack` | server/server_http.h:484-496 | the same of the strings that the outcome of a request carries |
| `CgiRelay.LongestQuery` | server/server_http.h:475-490 | a GET stays within the buffers of the child if and only if its query has fewer than 499 characters |
| `CgiRelay.ExecCgi` | server/server_http.h:391-529 | head and body handling by method, the program that is started, its environment and pipe, and the early return for a length of -1 |
| `CgiRelay.PostIsRelayed` | server/server_http.h:407-419 | over every head and body: refused exactly for a declared length of -1, otherwise program, length string, pipe and unread bytes |
| `CgiRelay.PostBodyIsRelayed` | server/server_http.h:407-419 | when the last length field is one that is read, the program is told that length, the pipe gets as many bytes and the rest of the body stays unread |
| `CgiRelay.PostWithoutLength` | server/server_http.h:407-419 | a head without a length field: length 0, nothing on the pipe, the body unread |
| `CgiRelay.PostRefused` | server/server_http.h:418-422 | a last length of -1 starts no program |
| `RequestLine.GetComm` | server/server_http.h:279-293 | copies the next word, writes no terminator, leaves the rest of the buffer |
| `RequestLine.SplitWords` | server/server_http.h:317-323 | method, url and version land in their buffers, each read from where `len` says |
| `RequestLine.GetPathMethodQuery` | server/server_http.h:307-353 | the final contents of all five buffers and the CGI flag |
| `RequestLine.ParseUndoesPrinting` | server/server_http.h:317-323 | from "method SP url SP version LF" it recovers method, url, and the version followed by LF |
| `RequestLine.WordsOfSpacedLine` | server/server_http.h:279-323 | with any number of spaces before and between the words: the method, and exactly what is taken for url and version |
| `RequestLine.VersionNeedsOneSpace` | server/server_http.h:279-323 | the version is read if and only if no space is before the method and one after it |
| `RequestLine.TwoSpacesExample` | server/server_http.h:279-323 | a line with two spaces after the method, whose version is taken from inside the url |
| `RequestLine.LeadingSpaceExample` | server/server_http.h:284-285 | a line with one space before the method, whose version is taken from inside the url |
| `RequestLine.LeadingSpacesExample` | server/server_http.h:284-285 | a line with two, whose url is taken from inside the method |
| `RequestLine.ScanQuery` | server/server_http.h:330-342 | the first '?' becomes a NUL and nothing else changes |
| `RequestLine.SplitUrl` | server/server_http.h:330-348 | url buffer, query and path after the cut, and whether there was a '?' |
| `RequestLine.SplitIsLossless` | server/server_http.h:330-343 | url part, '?' and query make up the url again; the flag is set exactly when there was a '?' |
| `RequestLine.PathIsCompleted` | server/server_http.h:344-348 | the path is "htdocs" and the url part, completed so that it never ends in a slash |
| `RequestLine.PathFits` | server/server_http.h:344-348 | the completed path fits its buffer if and only if the url part leaves room for the root and, after a slash, for the index |
| `RequestLine.BuildPath` | server/server_http.h:344-348 | the contents of the path buffer |
| `Server.ReadRequest` | server/server_http.h:610-640 | method, path, query and CGI flag of the request line; the stream is left after it |
| `Server.ExecGet` | server/server_http.h:257-373 | the file served or not opened, and the head skipped |
| `Server.ExecPost` | server/server_http.h:530-538 | first the submission with the line it composes, then the CGI run |
| `Server.Accept` | server/server_http.h:607-657 | ledger, composed line, file or CGI result with its environment, and the unread stream, for every request the code handles |
| `Server.RequestIsRead` | server/server_http.h:635-640 | a printed request line is read back, and the stream is left at the head |
| `Server.AskedWithMark` | server/server_http.h:326-348 | a printed GET with a '?': "htdocs" and the page as the path, what follows the mark as the query |
| `Server.AskedPlainly` | server/server_http.h:326-348 | a printed GET without one, or any other method: "htdocs" and the whole url as the path, for another method the whole url as the query, and only POST runs a program |
| `Server.FileRequest` | server/server_http.h:354-373 | a printed request for a file is one the code handles: the path below the root, and the head ends where the body begins |
| `Server.CheckInByGet` | server/server_http.h:607-657 | a form printed into a GET request becomes one submission of that name and id, the program of the page is given the same form, and the stream is left at the body |
| `Server.CheckInByPost` | server/server_http.h:530-538 | a form printed into the url of a POST does so too, and the program that the whole url names gets the declared length and body bytes |
| `Connections.FileConnection` | server/server_http.h:607-657 | a whole connection for a file: what is served for each result of `stat` and `fopen`, what is left unread, and that the ledger stays as it is |
| `Connections.GetConnection` | server/server_http.h:607-657 | a whole check-in by GET: the new history, the line of this visit, program, environment and pipe |
| `Connections.PostConnection` | server/server_http.h:607-657 | a whole check-in by POST: the same, with the declared length and as much of the body |
| `MutexDiscipline.SendVectorIsSafe` | server/server_http.h:539-605 | under every interleaving of any number of threads: no relock, no foreign unlock, a thread about to write `size`, append to the vector or fill the struct of `localtime` holds the mutex, at most one holder, always a thread that can step, all can still finish, free at the end |
| `MutexDiscipline.SendVectorIsDisciplined` | server/server_http.h:539-605 | no path through send_vector and its callees relocks, unlocks without holding, makes one of those writes without holding, or ends holding |
| `MutexDiscipline.DisciplineIsSafe` | server/server_http.h:556-601 | the same for every program without such a path |
| `MutexDiscipline.DisciplineIsExact` | server/server_http.h:556-601 | and only for those: any other program goes wrong with a single thread |
| `MutexDiscipline.DisciplineCanFinish` | server/server_http.h:556-601 | from every state that threads running a program without such a path can reach, a state is reachable in which all have finished |
| `MutexDiscipline.OuterLockRule` | server/server_http.h:556-558 | holding the mutex around a call can deadlock if and only if the callee may lock |
| `MutexDiscipline.CommentedOutLockDeadlocks` | server/server_http.h:562-576 | send_vector with the lock that is commented out can deadlock with a single thread |
| `MutexDiscipline.CommentedOutLockNeverFinishes` | server/server_http.h:562-576 | among any number of threads, under every interleaving, a thread that enters the departure branch of that version never finishes |
| `MutexDiscipline.RecordsAreWrittenBare` | server/server_http.h:560-570 | the writes to a stored record in the departure branch are not guarded: a state is reachable in which a thread is about to make them without the mutex |
| `LittleEndian.Load2IsValue` | mysql/mysql_lib/include/byte_order_generic.h:20-44 | the loads of two bytes are worth those bytes, unsigned and signed |
| `LittleEndian.Load3IsValue` | mysql/mysql_lib/include/my_byteorder.h:45-52 | uint3korr is worth its three bytes |
| `LittleEndian.Load4IsValue` | mysql/mysql_lib/include/byte_order_generic.h:28-54 | the loads of four bytes are worth those bytes, unsigned and signed |
| `LittleEndian.Load5IsValue` | mysql/mysql_lib/include/my_byteorder.h:54-63 | uint5korr is worth its five bytes |
| `LittleEndian.Load6IsValue` | mysql/mysql_lib/include/my_byteorder.h:65-75 | uint6korr is worth its six bytes |
| `LittleEndian.Load8IsValue` | mysql/mysql_lib/include/byte_order_generic.h:56-74 | the loads of eight bytes are worth those bytes, unsigned and signed |
| `LittleEndian.Sint3IsSignExtension` | mysql/mysql_lib/include/my_byteorder.h:31-43 | joining with OR gives the sign extension to four bytes of what addition would give |
| `LittleEndian.Int2Store` | mysql/mysql_lib/include/byte_order_generic.h:76-81 | writes the low two bytes, low first, and no other |
| `LittleEndian.Int3Store` | mysql/mysql_lib/include/my_byteorder.h:77-82 | writes the low three bytes and no other |
| `LittleEndian.Int4Store` | mysql/mysql_lib/include/byte_order_generic.h:83-89 | writes the four bytes and no other |
| `LittleEndian.Int5Store` | mysql/mysql_lib/include/my_byteorder.h:84-91 | writes the low five bytes and no other |
| `LittleEndian.Int6Store` | mysql/mysql_lib/include/my_byteorder.h:93-101 | writes the low six bytes and no other |
| `LittleEndian.Int8Store` | mysql/mysql_lib/include/byte_order_generic.h:91-97 | two four-byte stores write the eight bytes and no other |
| `LittleEndian.ImageAt` | mysql/mysql_lib/include/my_byteorder.h:77-101 | byte i of what the stores write is the value divided by 256^i, modulo 256 |
| `LittleEndian.LoadAfterStore` | mysql/mysql_lib/include/my_byteorder.h:45-101 | a load after a store gives the value modulo 2^16, 2^24, 2^32, 2^40, 2^48 and 2^64 |
| `LittleEndian.StoreAfterLoad` | mysql/mysql_lib/include/byte_order_generic.h:38-97 | storing a loaded value writes the same bytes back |
| `LittleEndian.SignedRoundTrip` | mysql/mysql_lib/include/my_byteorder.h:31-82 | the signed loads undo the stores exactly on the integers of their width |
| `LittleEndian.SignedRoundTrip8` | mysql/mysql_lib/include/byte_order_generic.h:67-97 | sint8korr reads every signed 64-bit integer back from its eight bytes |
| `LittleEndian.FieldsRoundTrip` | mysql/mysql_lib/include/byte_order_generic.h:38-97 | fields of widths 2, 4 and 8 stored back to back read back in order |
| `LittleEndian.StoreAllFrame` | mysql/mysql_lib/include/byte_order_generic.h:76-97 | stores back to back touch exactly the bytes of their fields |
| `TrailingSpace.SkipTrailingSpace` | mysql/mysql_lib/include/m_string.h:318-330 | eight bytes at a time it stops where the plain byte loop stops |
| `TrailingSpace.SkipTrailingSpaceAligned` | mysql/mysql_lib/include/m_string.h:281-311 | for every address, either word size and byte order, it stops where the plain byte loop stops |
| `TrailingSpace.SkipSpaceWords` | mysql/mysql_lib/include/m_string.h:304-306 | it stops on an aligned address inside the buffer, skips only words of spaces, and the next word down is not one |
| `TrailingSpace.TrimmedEndIsUnique` | mysql/mysql_lib/include/m_string.h:327-328 | the plain loop stops at the one end with only spaces after it and none before |
| `TrailingSpace.Uint8korrOfSpaces` | mysql/mysql_lib/include/m_string.h:323-324 | uint8korr gives the space constant if and only if all eight bytes are spaces |
| `TimespecArithmetic.SetTimespecNsec` | mysql/mysql_lib/include/my_global.h:672-684 | the struct is normalised always, and the intended moment if and only if the addition did not wrap and the seconds fit `time_t` |
| `TimespecArithmetic.DeadlineIsExact` | mysql/mysql_lib/include/my_global.h:672-684 | the same of the two fields as numbers |
| `TimespecArithmetic.SetTimespec` | mysql/mysql_lib/include/my_global.h:686-689 | the struct is normalised always, and exact if and only if neither product nor sum wraps and the seconds fit `time_t` |
| `TimespecArithmetic.SecondsAreExact` | mysql/mysql_lib/include/my_global.h:686-689 | the same of the two fields as numbers |
| `TimespecArithmetic.CmpIsOrder` | mysql/mysql_lib/include/my_global.h:698-714 | on normalised times the comparison is the order of the moments |
| `TimespecArithmetic.DiffIsExact` | mysql/mysql_lib/include/my_global.h:716-724 | where C defines it, the difference modulo 2^64, so exact if and only if it is neither negative nor too large |
| `TimespecArithmetic.DiffOfDeadlines` | mysql/mysql_lib/include/my_global.h:672-724 | deadlines armed from one clock reading differ by their delays, whatever wrapped at 64 bits, if and only if storing the seconds in `time_t` cancels |
| `TimespecArithmetic.LimitExamples` | mysql/mysql_lib/include/my_global.h:672-724 | with a four-byte `time_t`, a deadline stored as another moment, and a difference that is not that of the delays |

## Left out

- Sockets, epoll, fork, pipes, `stat`, `sendfile`, thread creation and the responses sent back: the model keeps the bytes that come in, the bytes that go to the CGI pipe and the strings given to the CGI program.
- Ledger updates by several threads at once: the scan in `find_id` and the later test of its result are not under one lock, so the ledger is stated for submissions handled one at a time; the lock discipline is stated for every interleaving.
- GetString: form texts without an `&` after the first `=` are outside, since what lies past a terminator is unknown; `StaysInsideText` says exactly which texts those are.
- GetLine: lines that do not fit, and streams that end inside a line, are outside, since there the code overruns its buffer or does not return; `LineFitsIsExact` says exactly when.
- GetPathMethodQuery: words longer than their fixed buffers are outside, and so are urls that fit `url[512]` but overflow `path[512]` once "htdocs" is put before them and "index.html" after a slash; `PathFits` says exactly which those are.
- SendVector: time differences and day counts that do not fit an `int` are outside, since C leaves that conversion undefined; the day count, a `double` that only ever has one added, is an integer here, which is exact up to 2^53 days. `size` is unbounded.
- ExecGet: a file that `stat` finds and `fopen` does not open is an outcome of its own (`Unopened`); what `fclose(NULL)` does after it is not modelled.
- ExecCgi: a GET query that overflows `query_env` is outside, and `LongestQuery` says exactly which those are; what `putenv` makes of a string without `=` is not modelled.
- `strftime`, `localtime` and `mktime`: a clock reading and its printed form come in as a pair.
- The event-loop server (`server/server.h`), the MySQL client wrapper, the client and the HTML output: near-duplicates of what is modelled here, or code without an algorithm.
- Floating-point loads and stores, the big-endian and x86 variants of the codecs, and the remaining MySQL headers.

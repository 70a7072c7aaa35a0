# JPPDOS protocol and algorithm proofs

Dafny models of the self-contained protocols and algorithms of the J++Device firmware and its host
tools, with proofs about them. `dafny verify dfyconfig.toml` checks all of it.

The main piece is the JPPD-SMP serial link: the frame scanner on a stream shared with log text
(`Framing`), the device's handlers, timer and consent keys as a transition system (`SerialDevice`) and
as the module state and open streams the C code updates in place (`SerialManager`, proved to perform
exactly those transitions and to use no stream but the open one of the active transfer), safety of
sessions over every interleaving (`Session`), what the keys under a dialog decide (`Consent`), the
command set byte by byte (`Commands`), and the stop-and-wait upload of the host script against
that device over two lossy first-in first-out links (`Upload`; which losses its retries make up for
against the clock in `UploadAttempts` and `UploadRecovery`; the script's own loops in `HostSession`). The other modules each take one algorithm:

- `Registers`, `Crc`, `CrcStrength`: the three CRC-16 and two CRC-32 implementations and the errors
  they always detect.
- `Download`: the announced chunks of a download.
- `BleMsg`, `MeetApp`, `MeetBinds`, `MeetAd`: chunked BLE messages, the MeetApp round-1.5 payload and
  proof text carried over them, what that text binds, and the session advertisement.
- `Cis`: the windowed scan of an SDIO card's tuple chain.
- `Bitmap`, `Raster`, `Gfx`, `GfxRuns`: packed framebuffers, the line and the integer square root of the demo
  scene, and the games' shadow framebuffer with its dirty rows, method by method and over whole runs.
- `Calendar`, `Clock`, `Cron`, `Scheduler`, `SchedulerRuns`: civil dates, the software clock, cron
  texts, the background table and its runs.
- `Lrv`: the write-once identity record and its EEPROM under power loss.
- `Pool`, `Sockets`: the shared pool and the socket table.

Where a property fails on part of its inputs, a lemma whose name ends in `Iff` gives the exact
condition under which it holds; where the failure takes a run, a lemma shows one
(`UploadRecovery.ThreeLostCommandsFail`, `UploadRecovery.LastReplyFails`,
`Session.BackupOutlivesSession`, `GfxRuns.DialogLosesRow`):

- The four retries of a chunk, ten seconds each, do not fit the device's 30-second session timer: three
  commands lost in a row end the session, the fourth attempt is refused, and the upload raises.
- A begin command longer than 1280 bytes, which a remote path of more than 1272 bytes makes it, is
  dropped by the device without an answer, although the host packs paths of up to 65527 bytes.
- A retransmit of chunk 65535 aborts an upload, because the 16-bit chunk counter has wrapped behind
  it. An upload completes up to 65536 chunks, but not with a lost reply to that last one; a download
  is whole up to 65535 chunks, and a chunk of which the card gives only some bytes is answered OK.
- A backup confirmed after the 30 s session timer expired is applied with no session open.
- A power cut after six or seven header bytes leaves an EEPROM that counts as provisioned but loads no
  identity, unless the erased bytes happen to complete the checksum; a store overwrites an existing
  identity when the read of its guard fails, and cut short it leaves a mixture that loads exactly when
  the checksum happens to fit.
- A modal helper that restores fullscreen wipes the canvas without the games noticing, so rows they
  hold for clean stay blank although the comment in games_gfx.c promises the full image back; over any
  run a flush shows everything exactly when each row that went stale so is blank anyway.
- A pool allocation whose alignment added to the offset exceeds 2^32 starts below the offset, inside
  the blocks handed out before.
- A MeetApp advertisement too short for its nickname is read past its end.
- An app id of 32 or more characters is stored shortened and never recognised again, so every
  synchronisation adds its tasks anew.
- A wrapped 32-bit sum makes an interval task due at every poll; the weekday is wrong before
  28 December 1969; the software clock jumps at midnight when it holds a day its month does not have.

Where code and documentation disagree the model follows the code: a second upload request during a
transfer is answered with the transfer error, a failed upload leaves the bytes received so far on the
card, and a CISTPL_NULL tuple is stepped over with a length byte like any other.

## Model

| member | source | states |
|---|---|---|
| Crc.SerialCrc16Step | main/jpp_serial_mgr.c:131-138 | one byte through the branch form that casts to 16 bits before the polynomial is added is one step of the common CRC-16 register |
| Crc.SerialCrc16Buf | main/jpp_serial_mgr.c:140-146 | the running CRC-16 of the device computes the common register function from any start value |
| Crc.LrvCrc16 | main/jpp_lrv.c:67-78 | the copy in the licence code, whose sum is formed in a wider type and cast, is the same checksum |
| Crc.HostCrc16 | scripts/jppd_upload.py:83-91 | the host's copy, an unbounded integer masked after each shift, is the same checksum |
| Crc.SerialCrc32Buf | main/jpp_serial_mgr.c:156-165 | the branch form of CRC-32 with a running accumulator computes the common register function |
| Crc.BleCrc32Buf | apps/common/jpp_ble_msg.c:43-53 | the mask form of CRC-32 (negated low bit) computes the same checksum |
| Crc.Feed16Append | main/jpp_serial_mgr.c:140-146 | feeding the CRC-16 piece by piece equals one pass over the concatenation |
| Crc.Feed32Append | main/jpp_serial_mgr.c:156-165 | feeding the CRC-32 piece by piece equals one pass over the concatenation |
| Crc.StepIsBitSerial | main/jpp_serial_mgr.c:131-138 | the byte-wise step is polynomial division of the message bits, most significant bit first, by an independent bit-serial divider |
| CrcStrength.FeedInjective16 | main/jpp_serial_mgr.c:140-146 | for a fixed message the CRC-16 register is an injective function of its start value |
| CrcStrength.BurstDetected16 | main/jpp_serial_mgr.c:131-146 | two messages of equal length that differ only within two adjacent bytes never share a CRC-16 |
| CrcStrength.FeedInjective32 | main/jpp_serial_mgr.c:156-165 | for a fixed message the CRC-32 register is an injective function of its start value |
| CrcStrength.BurstDetected32 | apps/common/jpp_ble_msg.c:43-53 | two messages of equal length that differ only within four adjacent bytes never share a CRC-32 |
| Framing.ScanSof | main/jpp_serial_mgr.c:1023-1036 | the scanner with its partial-match counter stops right after the first occurrence of the preamble in any byte stream, or reads it all when there is none |
| Framing.TracksStep | main/jpp_serial_mgr.c:1024-1035 | the counter's update keeps it the length of the longest preamble prefix that ends the bytes read, so no overlap is missed |
| Framing.NoiseThenSof | main/jpp_serial_mgr.c:1022-1036 | the preamble has no border: log bytes without it, followed by it, contain it first exactly where it was put |
| Framing.DeviceReadFrame | main/jpp_serial_mgr.c:1022-1070 | one turn of the receive task, with the waits for its bytes ending anywhere, is the declarative reading of a frame: first preamble, legal length, checksum in two parts, and on a timeout scanning resumes right behind the last byte taken |
| Framing.DeviceRxTask | main/jpp_serial_mgr.c:1016-1072 | the whole receive loop hands on exactly the well-formed payloads that arrive in time, in order, for every choice of timeouts, and drops the rest |
| Framing.HostReadFrame | scripts/jppd_upload.py:110-194 | one call of the host's reader is the same reading with the host's length limits and a deadline on the scan too |
| Framing.SendResponse | main/jpp_serial_mgr.c:187-214 | header, body and checksum written in three pieces are one frame of the response payload |
| Framing.FramesSurviveNoise | main/jpp_serial_mgr.c:1016-1072 | each receiver decodes exactly the frames sent, in order, whatever log text without the preamble lies between them |
| Framing.TamperedFrameDropped | main/jpp_serial_mgr.c:1053-1068 | a frame whose payload changed within two adjacent bytes is dropped, and reading goes on with what follows it |
| Framing.OversizedSkipped | main/jpp_serial_mgr.c:1038-1047 | a frame longer than the receiver takes is abandoned at its length and its bytes are scanned like log text |
| Framing.UndersizedSkipped | main/jpp_serial_mgr.c:1038-1047 | a frame that announces less than the least length costs its preamble and length; what stands behind those six bytes is received as if alone |
| Framing.NoTimeouts | main/jpp_serial_mgr.c:1016-1072 | as long as every wait is long enough the timed reading is the plain reading of the stream |
| Framing.BrokenSkipped | main/jpp_serial_mgr.c:1038-1063 | a frame that stops short at any byte costs its own bytes and nothing else: scanning resumes right behind them |
| Framing.WholeFramesSurvive | main/jpp_serial_mgr.c:1016-1072 | between log text and frames broken off at any byte before their end, the device decodes exactly the whole frames, in order |
| SerialManager.Manager.SessionTimeout | main/jpp_serial_mgr.c:230-240 | the timer callback performs the timer transition of the device model and sends nothing; no stream stays open behind the transfer it drops, and the device invariant is kept |
| SerialManager.Manager.CloseSession | main/jpp_serial_mgr.c:249-259 | drops the transfer, closes its stream and stops the timer, as the model's transition |
| SerialManager.Manager.HandleSessionStart | main/jpp_serial_mgr.c:282-314 | asks for consent or refuses, exactly the transition and response of the model |
| SerialManager.Manager.HandleUploadBegin | main/jpp_serial_mgr.c:616-651 | performs exactly the model's transition: checks in order, file truncated, transfer fields set, response sent; one stream is opened, exactly when the transfer begins |
| SerialManager.Manager.HandleUploadChunk | main/jpp_serial_mgr.c:653-697 | performs exactly the model's transition on every branch: new chunk, duplicate, out of order, card full; it writes only to the transfer's open stream, and closes it when the transfer is dropped |
| SerialManager.Manager.HandleUploadEnd | main/jpp_serial_mgr.c:699-730 | performs exactly the model's transition: stream closed once, checksum compared, response sent |
| SerialManager.Manager.HandleDlBegin | main/jpp_serial_mgr.c:732-791 | performs exactly the model's transition, the file digested in 256-byte reads from the stream just opened |
| SerialManager.Manager.HandleDlChunk | main/jpp_serial_mgr.c:793-822 | performs exactly the model's transition, a failed seek or read included, and reads only from the transfer's open stream |
| SerialManager.Manager.HandleDlEnd | main/jpp_serial_mgr.c:824-837 | performs exactly the model's transition and closes the stream once |
| SerialManager.Manager.HandleApplyBackup | main/jpp_serial_mgr.c:841-919 | performs exactly the model's transition up to the blocking wait for consent |
| SerialManager.Manager.Wake | main/jpp_serial_mgr.c:300-327 | what a handler does once its semaphore is given, for both kinds of request, is the model's wake-up transition; the device invariant is kept |
| SerialManager.Manager.DispatchCommand | main/jpp_serial_mgr.c:945-990 | the session guard and the choice of handler are the model's dispatch, for every payload; no handler uses, leaks or closes twice any stream, and the device invariant is kept |
| SerialManager.Manager.HandleAction | main/jpp_serial_mgr.c:1121-1146 | keys change consent and session exactly as in the model, with the event sent before a user-ended session closes; the device invariant is kept |
| Session.RunKeepsInv | main/jpp_serial_mgr.c:230-334 | every interleaving of commands, timer expiry, keys and wake-ups keeps the device invariant and the consent history invariant |
| Session.TransferOnlyInSession | main/jpp_serial_mgr.c:616-730 | in every reachable state a transfer is active exactly when its file is open, and an active transfer implies an active session |
| Session.SessionNeedsOwnConsent | main/jpp_serial_mgr.c:282-327 | every session was opened after the dialog of that very request was shown and answered with Allow, each dialog grants at most once and none that was denied |
| Session.SessionBeginsOnlyOnWake | main/jpp_serial_mgr.c:282-327 | a session begins in no step except the wake-up of a waiting session request |
| Session.FilesChangeOnlyInSession | main/jpp_serial_mgr.c:945-990 | a step that changes a transfer file is a command received in a session |
| Session.NoConsentNoChange | main/jpp_serial_mgr.c:945-990 | over any run that starts without a session: as long as no session request was allowed, no file of the card has changed and no transfer is active |
| Session.WaitingInSession | main/jpp_serial_mgr.c:230-259 | while a backup dialog is up, the session survives exactly when no timer expiry and no BACK before the decision intervened |
| Session.BackupInSessionIff | main/jpp_serial_mgr.c:841-919 | a confirmed backup is applied inside the session that asked for it if and only if nothing closed the session during the dialog |
| Session.BackupOutlivesSession | main/jpp_serial_mgr.c:841-919 | the failing case is reachable: the timer expires under the dialog, the user allows, the backup is applied with no session open |
| Consent.AnswerIff | main/jpp_serial_mgr.c:1121-1134 | the answer of a list of presses is the last of Left (Deny) and Right (Allow) before the first OK, or what was preselected; without OK there is none |
| Consent.AnswerStands | main/jpp_serial_mgr.c:282-314 | over every run from power-on or any other ready state: while a dialog waits, or its answer waits for the receive task, semaphore, decision and selection are those of the keys pressed since the command that asked; Allow is preselected for a session, Deny for a backup |
| Consent.DecisionIsAnswer | main/jpp_serial_mgr.c:1121-1134 | over every run from power-on the decision an OK records is the answer of the keys pressed since the dialog was shown |
| Consent.WakeObeysAnswer | main/jpp_serial_mgr.c:300-327 | over every run from power-on a wake-up opens the session or applies the backup on Allow, with its response byte by byte, and on Deny answers DENIED and does nothing else |
| Consent.GrantNeedsAllow | main/jpp_serial_mgr.c:300-327 | no session is opened and no backup applied unless the keys said Allow |
| Consent.LeftThenConfirmDenies | main/jpp_serial_mgr.c:1121-1134 | a dialog answered with Left and OK ends in DENIED wherever the run was before |
| Commands.OnCardIff | main/jpp_serial_mgr.c:263-268 | the prefix test accepts exactly the path /sd and the paths that begin with /sd/ |
| Commands.UploadBeginIff | main/jpp_serial_mgr.c:616-651 | byte by byte: FS_UPLOAD_BEGIN is acknowledged, the file emptied and open, if and only if no transfer is active, the path is /sd or below and the card opens it; each refusal has its own condition and changes nothing |
| Commands.DownloadBeginIff | main/jpp_serial_mgr.c:732-791 | the same for FS_DL_BEGIN, with the file that is not there |
| Commands.BackupAskedIff | main/jpp_serial_mgr.c:841-919 | a backup dialog comes up if and only if the path is /sd or below and the backup passes its check; otherwise the reason is answered |
| Commands.SessionAskedIff | main/jpp_serial_mgr.c:282-314 | a session dialog comes up if and only if there is no session, no app runs and protocol version 1 is asked for; each refusal has its own condition |
| Commands.SessionEndCloses | main/jpp_serial_mgr.c:330-334 | SESSION_END leaves no session, transfer or armed timer and changes no file, and the next command other than SESSION_START is answered NO_SESSION |
| Commands.TimerOrBackCloses | main/jpp_serial_mgr.c:1135-1145 | so does the timer, and so does Back outside a dialog after telling the host; no other key does anything there |
| Commands.ChunkAnswered | main/jpp_serial_mgr.c:653-697 | FS_UPLOAD_CHUNK for any transfer, own or foreign: which reply, what is appended and whether the transfer goes on, for every id, index and length |
| Upload.MatchDrains | scripts/jppd_upload.py:219-257 | when the host accepts a response, no older command or reply of it is left on either link |
| Upload.OthersPassedOver | scripts/jppd_upload.py:233-257 | events and responses to other attempts are passed over without effect; a response to the current one that is not OK raises |
| Upload.ChunkAccepted | main/jpp_serial_mgr.c:653-697 | an accepted chunk is appended to the file and to the running checksum once, and no other file changes |
| Upload.DeviceEnds | main/jpp_serial_mgr.c:699-730 | the closing command changes no file, is acknowledged in a session with the transfer active, and an acknowledgement always means the file is the local bytes |
| Upload.StepKeepsInv | main/jpp_serial_mgr.c:616-730 | every step of host, links, device, timer and keys keeps the upload invariant |
| Upload.UploadIsExact | scripts/jppd_upload.py:354-382 | if the upload returns normally after any run with losses, delays and retransmissions, the device file equals the local bytes, the links are drained, and no other file changed in any state of the run |
| Upload.EachChunkOnce | main/jpp_serial_mgr.c:653-697 | at every moment the open file holds each earlier chunk exactly once in order and the current one at most once |
| Upload.RetransmitHarmlessIff | main/jpp_serial_mgr.c:662-692 | a retransmitted chunk is acknowledged again without effect if and only if it is not chunk 65535, behind which the 16-bit counter has wrapped |
| UploadRecovery.UploadEndsIff | scripts/jppd_upload.py:219-257 | for every plan of lost commands and replies with every timing of delays and waits, played against the 30-second session timer: the upload ends normally, the file equal to the local bytes, if and only if each command loses no more attempts than it has retries, each is heard before the timer expires, chunk 65535 loses no reply and no chunk index exceeds 16 bits; otherwise it ends in an exception |
| UploadRecovery.BearableIfPatient | scripts/jppd_upload.py:219-257 | losses within the retries are made up for as long as the device is never left without a command for three waits in a row and the two waits, the gap and the delay together stay under 30 seconds |
| UploadRecovery.ThreeLostCommandsFail | main/jpp_serial_mgr.c:230-247 | the failing case: three commands lost in a row, anywhere, outlast the session timer at ten seconds each, so the next attempt is refused and the upload raises with retries left |
| UploadRecovery.RaceIff | main/jpp_serial_mgr.c:242-247 | a lost reply followed by two lost commands is borne if and only if the next attempt travels faster than the one whose reply was lost |
| UploadRecovery.PastRetriesFails | scripts/jppd_upload.py:219-257 | one loss more than its retries ends the upload in an exception at any command |
| UploadRecovery.LastReplyFails | scripts/jppd_upload.py:354-382 | a lost reply to chunk 65535 ends the upload in an exception although retries are left |
| UploadRecovery.UploadCompletesIff | scripts/jppd_upload.py:354-382 | from any reachable device state some run ends the upload normally if and only if there is a session without a transfer, the path lies on the card and leaves the begin command within the 1280 bytes of a device frame, and the file has at most 65536 chunks |
| HostSession.SmpSession.NextSeqNo | scripts/jppd_upload.py:210-217 | hands out the counter and advances it as the host machine does |
| HostSession.SmpSession.Await | scripts/jppd_upload.py:233-257 | the read loop skips events and stale responses and stops at the match or the timeout, as the host machine |
| HostSession.SmpSession.Cmd | scripts/jppd_upload.py:219-257 | send, wait and re-send: the frames written and the response taken are those of the host machine on the same inputs |
| HostSession.SmpSession.UploadFile | scripts/jppd_upload.py:354-382 | the script's frames and its outcome, normal return or exception, are those of the host machine for which the upload theorems hold |
| Download.JoinedIsPrefix | main/jpp_serial_mgr.c:793-822 | the chunks served, joined, are a prefix of the file |
| Download.ChunkServedIff | main/jpp_serial_mgr.c:793-822 | a request for an announced chunk leaves the device as it was and is answered with that chunk whole if and only if the card can be positioned and read that far; the answer is OK already when some of its bytes could be read |
| Download.DownloadCompleteIff | main/jpp_serial_mgr.c:732-822 | the announced chunks make up the whole file if and only if it is at most 65535 * 1024 bytes long |
| Download.DownloadAnnounced | main/jpp_serial_mgr.c:732-791 | the answer to FS_DL_BEGIN, read at its offsets, gives the file's length, the number of chunks that make it up, and the CRC-32 of those chunks joined |
| BleMsg.Send | apps/common/jpp_ble_msg.c:82-123 | the writes made are the frames of the message, as many as the peer takes, and success means all of them |
| BleMsg.FramesOnAir | apps/common/jpp_ble_msg.c:82-123 | the writes byte by byte: type 1 with length and checksum, then the k-th 400 bytes behind type 2 and k in 16 bits, least significant byte first |
| BleMsg.HostRecv | apps/common/jpp_ble_msg.c:127-208 | the receive loop over the caller's buffer is the frame-by-frame receiver; an accepted message is in the buffer and no byte from out_cap on is touched |
| BleMsg.TransferDelivers | apps/common/jpp_ble_msg.c:127-208 | from any receiver state a complete transfer delivers its message |
| BleMsg.MessageRoundTrip | apps/common/jpp_ble_msg.c:82-208 | delivered once and in order, the sender's writes give back exactly the message, behind stray frames and abandoned transfers, even when the sequence number wraps |
| BleMsg.AcceptedFromStart | apps/common/jpp_ble_msg.c:127-208 | for arbitrary frames an accepted message is the concatenation of the data since the last BEGIN, of the announced length and CRC-32, within out_cap |
| BleMsg.CorruptionNoticed | apps/common/jpp_ble_msg.c:190-204 | bytes changed within four adjacent positions on the way are always noticed |
| MeetApp.BuildMessage | apps/meetapp/src/meetapp_proof.c:14-62 | the running offset and bounded prints produce the proof text, cut to the buffer, ended by NUL |
| MeetApp.MessageNeverCut | apps/meetapp/src/meetapp_proof.c:14-62 | for at most 20 in-bounds participants the text has at most 2025 bytes, so the buffer never cuts it |
| MeetApp.LinesBind | apps/meetapp/src/meetapp_proof.c:52-62 | equal participant lines bind equal keys in the same order and nicknames equal up to trailing blanks |
| MeetBinds.TextShows | apps/meetapp/src/meetapp_proof.c:14-62 | the text shows the comment, the number of participants in decimal, the time, the nonce in hexadecimal and the participants' lines, each at a place fixed by the lengths before it |
| MeetBinds.TextBinds | apps/meetapp/src/meetapp_proof.c:14-62 | equal texts bind equal ingredients: for as many participants and timestamps of one length, the nonce, the time, the comment, every key in order and every nickname up to trailing blanks |
| MeetBinds.MessageBinds | apps/meetapp/src/meetapp_proof.c:14-62 | the same of the message that is hashed and signed, for at most 20 in-bounds participants |
| MeetBinds.HexIs | apps/meetapp/src/meetapp_proof.c:26-29 | the i-th byte of a key or nonce is printed as its two lower-case hexadecimal digits, upper half first |
| MeetApp.PackRound15 | apps/meetapp/src/meetapp_ble.c:197-231 | the moving-offset packing produces the payload layout, inside the buffer |
| MeetApp.UnpackRound15 | apps/meetapp/src/meetapp_ble.c:346-396 | the unpacking loop and its length checks are the declarative reading of the payload |
| MeetApp.UnpacksIff | apps/meetapp/src/meetapp_ble.c:346-396 | something is taken for a payload if and only if it opens with 1, names 1 to 20 participants and is long enough for them |
| MeetApp.PayloadRoundTrip | apps/meetapp/src/meetapp_ble.c:197-231 | everything the leader packed comes out again, field by field |
| MeetApp.PayloadOnAir | apps/meetapp/src/meetapp_ble.c:197-231 | the payload byte by byte: where hash, nonce, count, the i-th key, the time, the i-th nickname and the comment lie |
| MeetApp.ParticipantRebuildsText | apps/meetapp/src/meetapp_ble.c:346-396 | packing, chunked transfer, unpacking and message building compose to the identity: every participant rebuilds the leader's text byte for byte |
| MeetAd.ParseAd | apps/meetapp/src/meetapp_ble.c:38-66 | the loop over AD structures is the recursive scan, with its bounds checks |
| MeetAd.ForeignSkipped | apps/meetapp/src/meetapp_ble.c:38-66 | well-formed structures that are no MeetApp record are skipped, however many |
| MeetAd.RecordTaken | apps/meetapp/src/meetapp_ble.c:38-66 | any structure of at least 12 bytes with the type and company of MeetApp is taken, also one too short for a nickname |
| MeetAd.AdRoundTrip | apps/meetapp/src/meetapp_ble.c:17-66 | kind, nonce and nickname survive building and parsing after any such structures |
| MeetAd.AfterIgnoredIff | apps/meetapp/src/meetapp_ble.c:38-66 | the result depends on the memory behind the advertisement if and only if the first MeetApp record's nickname neither ends nor is cut off inside it |
| Cis.CheckTuples | components/sdmmc/sdmmc_io.c:648-672 | a 32-byte window advances the scan along the tuple chain, also when a tuple's length byte comes first in it, and reports the END code it meets |
| Cis.GetCisData | components/sdmmc/sdmmc_io.c:674-745 | the windowed scan returns what a parse of the whole contiguous chain says; on every outcome the buffer holds exactly the bytes copied until then and is untouched behind them |
| Cis.ChainEndSkipsTuples | components/sdmmc/sdmmc_io.c:648-672 | the chain of any list of tuples, however long their bodies, ends at the END code behind them |
| Cis.WholeChainIsRead | components/sdmmc/sdmmc_io.c:674-745 | a card holding a tuple list and an END code is read as exactly those bytes, for every limit and buffer: its size is reported, as a result or as too much for the buffer, if and only if the window of the END code begins below the limit |
| Raster.Isqrt32 | apps/demoscene/src/demoscene.c:78-92 | for every 32-bit v no step overflows and r * r <= v < (r + 1) * (r + 1) |
| Raster.Line | apps/demoscene/src/demoscene.c:127-141 | stops after exactly max(|dx|, |dy|) + 1 points and lights exactly the on-screen pixels of the line rounded to the nearest pixel |
| Raster.LineIsTrue | apps/demoscene/src/demoscene.c:127-141 | the points start and end at the two end points, take 8-adjacent steps, advance on the longer axis each time and stay within half a pixel of the true line |
| Raster.StepsTogether | apps/demoscene/src/demoscene.c:137-139 | the two comparisons of the doubled error move each coordinate exactly when its rounded position moves; the error stays within three lengths |
| Raster.NoOverflow | apps/demoscene/src/demoscene.c:127-141 | with end points within 2^28 of the origin no 32-bit int of the loop overflows |
| Raster.PixelsAre | apps/demoscene/src/demoscene.c:127-141 | the pixel set of a line is the set of its rounded points that are on the screen |
| Bitmap.Picture.Plot | apps/demoscene/src/demoscene.c:115-123 | sets or clears exactly the addressed pixel of the packed framebuffer, bit x mod 8 from the top of byte x / 8 of row y, and nothing when it is off screen |
| Bitmap.StoreThenTest | apps/demoscene/src/demoscene.c:115-123 | a stored bit reads back and no other bit of its byte moves |
| Calendar.DaysAre | main/jpp_bg_scheduler.c:32-40 | no unsigned conversion wraps and the era arithmetic is floor division: the day number is the count of March-based years, months and days, in every year |
| Calendar.NextDayAddsOne | main/jpp_bg_scheduler.c:32-40 | 1 January 1970 is day 0 and the next calendar day has the next number, across months, leap days and centuries |
| Calendar.CountingForward | main/jpp_bg_scheduler.c:32-40 | counting days forward from the epoch is the inverse of the day number |
| Calendar.DaysInOrder | main/jpp_bg_scheduler.c:32-40 | day numbers are in calendar order, both ways, and no two dates share one |
| Calendar.ChallengeAgrees | main/jpp_lrv.c:226-236 | the second copy of the computation gives the same number |
| Calendar.EpochExactIff | main/jpp_bg_scheduler.c:42-49 | the 32-bit epoch is the true count of seconds if and only if that count fits 32 bits |
| Calendar.EpochInOrder | main/jpp_bg_scheduler.c:42-49 | from 1970 to 2105 the epoch orders date-times exactly as the calendar does |
| Calendar.WeekdayRightIff | main/jpp_bg_scheduler.c:78-81 | the coded weekday is right if and only if the day number is at least -4, because 2^32 is no multiple of 7; day 0 is a Thursday |
| Calendar.WeekdayAdvances | main/jpp_bg_scheduler.c:78-81 | the weekday moves on by one modulo 7 with every calendar day |
| Clock.GetCurrent | components/jpp_core/src/jpp_rtc_core.c:195-234 | the three carry loops give the time carried from seconds to days |
| Clock.ClockTrueIff | components/jpp_core/src/jpp_rtc_core.c:195-234 | the clock runs true by exactly the elapsed seconds if and only if it holds a day its month has or no midnight has passed |
| Cron.CronFieldMatches | main/jpp_bg_scheduler.c:55-75 | the cursor loop decides one field and stops behind its trailing spaces |
| Cron.CronMatches | main/jpp_bg_scheduler.c:78-91 | the five calls along the cursor decide the whole text; for five well-formed fields the answer is whether they allow minute, hour, day, month and weekday in this order |
| Cron.TextMatches | main/jpp_bg_scheduler.c:55-91 | a text of fields apart by spaces matches if and only if each field is a star or names its value |
| Cron.FiveFieldsMatch | main/jpp_bg_scheduler.c:78-91 | a text of five fields matches a time if and only if they allow its minute, hour, day of the month, month and true weekday, Sunday being 0 |
| Cron.MissingFieldsAreZero | main/jpp_bg_scheduler.c:55-75 | in a text cut short every missing field stands for the number 0 |
| Scheduler.Schedule.SyncApp | main/jpp_bg_scheduler.c:160-210 | the in-place compaction and appending give: the other apps' entries as they were, then the app's tasks in manifest order up to capacity, each with the last run of its name |
| Scheduler.Schedule.Compact | main/jpp_bg_scheduler.c:166-183 | dropping the app's entries in place keeps the others in order and returns the dropped ones |
| Scheduler.Schedule.Due | main/jpp_bg_scheduler.c:212-242 | the first due entry is reported, none if none is due |
| Scheduler.Schedule.MarkRun | main/jpp_bg_scheduler.c:244-260 | the first entry with the key takes the epoch and nothing else changes |
| SchedulerRuns.OtherAppsUntouched | main/jpp_bg_scheduler.c:160-210 | a synchronisation leaves every other app's entries as they were and in order |
| SchedulerRuns.SyncKeepsUnique | main/jpp_bg_scheduler.c:160-210 | with distinct names and ids that fit, (app, task) stays a key |
| SchedulerRuns.SyncedTask | main/jpp_bg_scheduler.c:185-206 | the app's i-th entry after a synchronisation has the name, interval, cron text and last run of the i-th task of the manifest, as many as fit into eight entries |
| SchedulerRuns.SyncTwiceIff | main/jpp_bg_scheduler.c:160-210 | a second identical synchronisation changes nothing if and only if the id fits its 32-byte field, or there was nothing to add, or no room was left |
| SchedulerRuns.SyncKeepsPlan | main/jpp_bg_scheduler.c:185-206 | an entry the manifest still asks for comes through with its last run |
| SchedulerRuns.RunKeepsPlan | main/app_main.c:1675-1680 | over any run of due-then-mark and synchronisations the planned entry stays, with its last mark, and keys stay unique |
| SchedulerRuns.LaunchesApart | main/app_main.c:1675-1680 | over any run an interval task is launched at most once an interval, a cron task at most once a minute and only at times whose minute, hour, day, month and weekday its five fields allow |
| SchedulerRuns.StaysDue | main/jpp_bg_scheduler.c:224-241 | a due interval task stays due, whatever else runs and is synchronised, until it is launched |
| SchedulerRuns.IntervalDueIff | main/jpp_bg_scheduler.c:227-229 | a task that never ran is due; after that the 32-bit comparison says due exactly when the interval has passed or the sum wraps |
| SchedulerRuns.CronDueIff | main/jpp_bg_scheduler.c:224-241 | a cron task is due if and only if its five fields allow the minute and it was not marked in that very minute |
| Lrv.RecordRoundTrip | scripts/lrv_manufacturing.py:118-148 | the record has its fields at fixed offsets, and the firmware parses it back to all of them, the hardware id cut to 23 bytes, for certificates of at most 190 NUL-free bytes |
| Lrv.LoadsIff | main/jpp_lrv.c:99-118 | the chip counts as provisioned if and only if it opens with JLRV and a length of 189 to 380, and then loads that many bytes if and only if their checksum is the one stored |
| Lrv.Identity.ReadBack | main/jpp_lrv.c:99-118 | the boot-time reader is the declarative reading: magic, possible length, matching checksum; nothing when one of its two reads fails |
| Lrv.Identity.constructor | main/jpp_lrv.c:122-150 | after start-up the identity in memory is the one the chip holds, if it is fitted, readable and holds one |
| Lrv.Identity.WritePage | components/jpp_core/src/jpp_eeprom_core.c:120-137 | a page-bounded write programs its bytes in place although the chip wraps addresses within a page |
| Lrv.Identity.Write | components/jpp_core/src/jpp_eeprom_core.c:139-159 | the page loop programs the bytes contiguously, up to the point where writing fails |
| Lrv.Identity.Store | main/jpp_lrv.c:285-331 | refusals in order, then record and header written; what is on the chip, what is in memory and each of the five results returned, for every failure of reads and writes |
| Lrv.Identity.WriteIdentity | main/jpp_lrv.c:298-323 | record first, header last, then the read-back: the cells programmed for any point of failure, and success exactly when all of it was |
| Lrv.TornStore | main/jpp_lrv.c:285-331 | power lost after any byte of a store on an erased chip: the next boot reads no identity or exactly the intended record, decided by which header bytes made it |
| Lrv.TornAgain | main/jpp_lrv.c:285-331 | the same on a chip on which stores were cut before, as long as header bytes 5 to 7 are erased: up to five header bytes leave it unprovisioned, from six on it is provisioned and loads nothing or exactly that record |
| Lrv.RunOfStores | main/jpp_lrv.c:272-331 | over any run of stores, each cut anywhere: the chip stays unprovisioned and loads nothing, or one store sealed it, no later one changes a cell, and only that record can ever be loaded |
| Lrv.StrandedIff | main/jpp_lrv.c:272-297 | the chip counts as provisioned without a loadable identity exactly when six or seven header bytes were programmed and erased cells do not complete the checksum |
| Lrv.WriteOnceIff | main/jpp_lrv.c:272-331 | after a finished store the next boot loads that record, and a later uncut store changes the chip if and only if its guard read failed and it brings another record |
| Lrv.CutOverwriteIff | main/jpp_lrv.c:285-331 | such a store cut short over an existing identity while the header is still the old one: the next boot loads a mixture of both records if and only if it has the old checksum, and nothing otherwise |
| Lrv.CutHeaderIff | main/jpp_lrv.c:285-331 | cut later than that: the next boot loads the new record if and only if its whole length is in place and the checksum bytes in the header happen to be its own, and nothing otherwise; a length mixed of two is never a legal one |
| Lrv.NearCutLoadsNothing | main/jpp_lrv.c:285-331 | a mixture that differs from the old record within two adjacent bytes is never loaded |
| Gfx.Screen.Px | apps/games/src/games_gfx.c:41-60 | in any state, also after a modal, draws exactly one logical pixel in either orientation, clipped; to the canvas, framebuffer and dirty rows it is at most one painted row of the run model |
| Gfx.Screen.HLine | apps/games/src/games_gfx.c:62-67 | draws exactly the clipped logical pixels of the row piece, as a sequence of painted rows |
| Gfx.Screen.VLine | apps/games/src/games_gfx.c:69-74 | draws exactly the clipped logical pixels of the column piece, as a sequence of painted rows |
| Gfx.Screen.Rect | apps/games/src/games_gfx.c:76-81 | changes exactly the clipped logical pixels of the rectangle, in either orientation and in any state, as a sequence of painted rows |
| Gfx.Screen.Frame | apps/games/src/games_gfx.c:83-89 | draws its four edges, clipped, as a sequence of painted rows |
| Gfx.FrameIsBorder | apps/games/src/games_gfx.c:83-89 | the four edges are the rectangle without its inside |
| Gfx.QuarterTurn | apps/games/src/games_gfx.c:44-52 | held sideways the picture is turned a quarter and not mirrored: right is up on the panel and down is right, from the lower left corner, and every panel pixel is reached |
| Gfx.Screen.Clear | apps/games/src/games_gfx.c:35-39 | in any state empties the picture and marks every row, the clear of the run model |
| Gfx.Screen.Flush | apps/games/src/games_gfx.c:165-182 | in any state is the flush of the run model; afterwards canvas and framebuffer are equal if and only if every clean row agreed with a fullscreen canvas before |
| Gfx.Screen.ShowFrame | components/jpp_core/src/jpp_sdk_bridge.c:418-445 | a frame drawn through the SDK wipes the canvas and ends fullscreen without a word to the games' dirty rows |
| Gfx.Screen.ShowDialog | components/jpp_core/src/jpp_sdk_bridge.c:2908-2963 | a whole modal helper is the modal of the run model |
| Gfx.FlushShowsAllIff | apps/games/src/games_gfx.c:165-182 | a flush shows the whole picture if and only if every clean row agrees with the canvas |
| GfxRuns.RunShowsAllIff | apps/games/src/games_gfx.c:165-182 | over every run of painted rows, clears, set_frame calls, modals and flushes, a flush shows the whole framebuffer if and only if every stale row is blank anyway; a row is stale from a fullscreen modal that met it clean until it is drawn on, cleared, or flushed after a loss of fullscreen |
| GfxRuns.RunShowsRow | apps/games/src/games_gfx.c:165-182 | the same row by row: a flush leaves each canvas row equal to the framebuffer's or, exactly where it is stale, blank, never anything older |
| GfxRuns.NoModalNoStale | apps/games/src/games_gfx.c:165-182 | without a modal no row gets stale, so every flush shows everything |
| GfxRuns.DialogLosesRow | components/jpp_core/src/jpp_sdk_bridge.c:2908-2913 | the failing run: draw a row that is not blank, flush, show a dialog, flush; the canvas row is blank and stays so until it is drawn on again |
| Gfx.DrewKeepsStep | apps/games/src/games_gfx.c:35-89 | any sequence of painted rows leaves the canvas and every row it does not mark as they were, and keeps clean rows in step with the canvas |
| Gfx.Canvas.Fullscreen | components/jpp_core/src/jpp_sdk_bridge.c:2293-2313 | a change of mode wipes the canvas, no change leaves it |
| Gfx.Canvas.Modal | components/jpp_core/src/jpp_sdk_bridge.c:2908-2963 | a modal helper leaves the mode as it was and the canvas wiped |
| Pool.StartAfterIff | components/jpp_app_pool/src/jpp_app_pool.c:49-50 | the block starts at or after the bump offset if and only if the sum of offset and alignment fits 32 bits, and then less than one alignment further on |
| Pool.WrappedStart | components/jpp_app_pool/src/jpp_app_pool.c:49-50 | the failing case: offset 100 and alignment 0xFFFFFFFF give start 0 |
| Pool.StartIsRoundedUp | components/jpp_app_pool/src/jpp_app_pool.c:49-50 | for a power of two the mask really rounds up: the start is the least multiple of the alignment not below the bump offset |
| Pool.AndSplits | components/jpp_app_pool/src/jpp_app_pool.c:49-50 | masking with the complement of m removes exactly what masking with m picks out |
| Pool.AppPool.Acquire | components/jpp_app_pool/src/jpp_app_pool.c:18-36 | succeeds exactly when the pool is free and large enough, a second holder is refused, a refusal changes nothing |
| Pool.AppPool.Alloc | components/jpp_app_pool/src/jpp_app_pool.c:43-59 | for every 32-bit alignment, succeeds exactly when the rounded start plus the size fits; the blocks handed out since the acquire stay inside the pool and aligned, and stay disjoint if and only if offset plus alignment fits 32 bits; a failure changes nothing |
| Pool.AppPool.Release | components/jpp_app_pool/src/jpp_app_pool.c:66-71 | afterwards the pool is free and all of it available |
| Sockets.Network.Bind | main/jpp_native_services.c:326-369 | on every path the open descriptors are exactly the listener and the table; the listener is set exactly on success, and each refusal has its own condition |
| Sockets.Network.Accept | main/jpp_native_services.c:384-420 | an accepted peer is stored or closed again, never leaked, on every path; which result is returned when |
| Sockets.Network.Connect | main/jpp_native_services.c:425-504 | a failed connection leaves nothing open, a successful one is in the table, on every path; which result is returned when |
| Sockets.Network.Receive | main/jpp_native_services.c:506-534 | only descriptors of the table are read from; nothing in time is no error, nothing from a ready socket means closed, an error is reported |
| Sockets.Network.Send | main/jpp_native_services.c:536-556 | the system took exactly the first bytes of the data in order, as many as reported; Done if and only if some of the answers, from the first on, are all positive and add up to the length, otherwise SendFailed with the sum up to the first that is not; nothing for a socket that is not in the table |
| Sockets.Network.Close | main/jpp_native_services.c:558-580 | closes exactly the named descriptor and forgets it |
| Sockets.Network.CloseAll | main/jpp_native_services.c:582-596 | nothing stays open |
| Sockets.AtMostThree | main/jpp_native_services.c:312-596 | what is open is exactly the listener and the distinct entries of the table, each counted once |

## Left out

- Crc.HostCrc16: Python's unbounded register is kept in 32 bits, which its mask after every shift never exceeds.
- Framing.DeviceReadFrame: where a wait ends is chosen from outside; the durations of the three deadlines are not modelled.
- Framing.HostReadFrame: the debug echo of log noise and the length of the deadline are not modelled.
- SerialManager.Manager.DispatchCommand: directory listing, mkdir, remove, rename, device info, licence data and time setting enter as commands with a status from outside and no file effect.
- SerialManager.Manager.HandleApplyBackup: reading and parsing the backup is a status from outside; what applying it writes is not modelled.
- SerialManager.Manager.HandleSessionStart: the automatic consent of the provisioning build and the PROVISION_LRV command are not modelled.
- Session.RunKeepsInv: each handler is one atomic step, split only at the blocking consent wait; races inside a handler body are not modelled.
- Upload.UploadIsExact: links lose and delay frames but do not corrupt them undetected or reorder them; a corrupted frame counts as lost. Closing the serial port between uploads is not modelled.
- UploadRecovery.UploadEndsIff: a reply that arrives after its attempt was given up, and keys pressed during the upload, are covered by Upload.UploadIsExact, not by the plans.
- Upload.StepKeepsInv: a command too long for a device frame is dropped as a whole; the scan of its bytes for a preamble, which Framing.OversizedSkipped describes, is not carried into the upload.
- HostSession.SmpSession.UploadFile: reading the local file and the progress output are not modelled.
- SerialManager.Manager.HandleDlBegin: a failed size query counts as a failed open, and a read error while the checksum of the file is computed is not modelled.
- Download.DownloadCompleteIff: the tree holds no client for downloads, so the joined chunks stand for one.
- BleMsg.Send: the hexadecimal transport of a write and the notification path are not modelled; a write is accepted or refused.
- MeetApp.ParticipantRebuildsText: SHA-512, MuSig2 and Ed25519 are not modelled; the text that is hashed is.
- MeetApp.BuildMessage: only the text is modelled, not the hash computed from it at the end.
- Cis.GetCisData: reading the CIS address from the card register and its range check are not modelled; a read fails exactly where the card's bytes end.
- Raster.Line: coordinates are unbounded integers; Raster.NoOverflow gives a range of end points, not the largest, on which the 32-bit `int` of the program agrees.
- Pool.AppPool.Acquire: addresses are offsets into the 16-byte aligned pool.
- Calendar.DaysAre: the signed 32-bit product of era and days overflows beyond year 5.8 million, which is not modelled.
- Clock.GetCurrent: the weekday and sub-second fields, which the code copies unchanged, and the overflow of the seconds counter after 68 years are not modelled.
- Cron.CronFieldMatches: numbers are unbounded; the overflow of a number of ten or more digits is not modelled.
- Scheduler.Schedule.SyncApp: the JSON file the table is saved to and loaded from is not modelled.
- SchedulerRuns.LaunchesApart: the launch itself and its time quota are not modelled; the clock is readable at every poll, as it is unless the RTC was never set.
- Lrv.TornStore: bytes of a page are programmed in address order; a chip that leaves an arbitrary subset of a torn page is not modelled.
- Lrv.RecordRoundTrip: the key fields have the lengths the signing library returns, which the script does not check.
- Gfx.Screen.Flush: a flush before the first init, when no SDK context is set, does nothing and is not modelled, nor is the text the SDK shows while the canvas is windowed. The 64-bit dirty mask is a set of rows.
- Sockets.Network.Connect: name resolution, the non-blocking mode and the errors of the system are answers from outside.
- BLE scanning, nonce collection and signature rounds of MeetApp; fonts and text drawing of the games.
- User interface, settings, onboarding, the broker, the native loader, MicroPython glue, SD command sequencing, build and flashing scripts.

# Byte-framing protocol with two receiver state machines

This project models a small serial framing protocol written in C, and proves
properties of that model. A frame on the wire is

    STX (0x02) | QTD | DATA[QTD] | CHK | ETX (0x03)

Here `QTD` is a non-zero payload length of at most 255. `CHK` is the 8-bit
*sum*, not the XOR, of the payload bytes; it wraps modulo 256, the way a
`uint8_t` accumulator does.

The repository has three copies of the protocol. They all share the same
sender side:

- `protocol_calculate_checksum` computes the checksum.
- `protocol_create_message` builds a frame.

They differ in the receiver:

- **Trabalho2/atividade_entrega_fms.c**: a `switch` over seven states. Besides
  the five waiting states there is `MESSAGE_OK` and `MESSAGE_ERROR`. The byte
  after a finished frame is always swallowed, because it only triggers
  `protocol_reset`.
- **Trabalho3/atvdd_fsm_tabela_de_estados.c**: the current state is a pointer
  to one of five state functions. The end byte returns the machine directly
  to waiting for STX, so frames may follow each other with no gap.
  `message_ready` stays set until the next STX.
- **Trabalho2/Trabalho3/atvdd_fsm_tabela_de_estados.c** is byte-for-byte the
  same file, and the same model covers it.

## Layout

- `protocol.dfy` (module `Protocol`) holds what every file shares:
  - the byte type, the constants and the return codes;
  - the receiver registers as a value (`Handler<S>`);
  - the checksum, `Checksum`, specified as the source accumulates it. Lemmas
    prove it is the true sum modulo 256 and that it detects any single
    changed byte;
  - the wire layout `Frame`.
- `codec.dfy` (module `Codec`) holds the sender side:
  - the checksum loop, as a method proved against `Checksum`;
  - the frame builder, both as written and corrected (see Findings). The two
    copies of this code are identical: Trabalho2 lines 142-172 and Trabalho3
    lines 141-171.
- `switch_fsm.dfy` (module `SwitchFsm`) and `table_fsm.dfy` (module
  `TableFsm`) each hold one receiver:
  - `Next` is one call of `protocol_process_byte` on the registers, as a pure
    function.
  - `Run` is a sequence of such calls.
  - `Inv` is the invariant every call keeps.
  - A `ProtocolHandler` class has the C struct's fields, including the
    256-byte `dados` array. Its methods update the fields as the C functions
    do, and each method is proved against `Next`. In `TableFsm`, each state
    function becomes a method too. `ProcessByte` dispatches on the state field
    the way the C code calls through the function pointer.

The two receiver modules each define their own `Received`, `Initial`, `Run`,
`RunAppend`, `RunOne`, `RunThen`, `GarbageIgnored`, `DataStep`, `DataDone`,
`DataDoneShift`, `DataPhase` and `Header`. These have the same shape in both
modules, but they are not shared, for two reasons:

- Each module states them over its own `State` type and its own `Next`, so
  each module is a complete model of one C program.
- A shared `Run` that took the transition function as a parameter would send
  every frame-level proof through applications of a function value. Over
  concrete frames those proofs are the costliest in the project.

Return codes are the `Status` datatype. `Status.Code()` gives the C integers
0, -1, -2 and -3.

The size reported by `protocol_create_message` is modelled as written:
`5 + qtd` (`Codec.Create`, `Codec.CreateMessage`). That is one more than the
`4 + qtd` bytes actually written. The source's own test expects 8 for a
3-byte payload, so this is treated as intended.

The checksum here is the 8-bit sum of the payload bytes: every modelled file
adds the bytes modulo 256, and so do their tests. The separate protothread
program (T4 - PROTOTHREAD/protothread.c:92-97) uses an XOR of the bytes
instead and counts its packet as `4 + data_size` bytes (line 137). That
program is not part of this model, and its conventions are not used here.

## Model

| member | source | states |
|---|---|---|
| Protocol.ChecksumIsSumMod | Trabalho2/atividade_entrega_fms.c:142-150 | the 8-bit wrapping accumulator equals the integer sum of the bytes modulo 256 |
| Protocol.ChecksumDetectsSingleByteChange | Trabalho2/atividade_entrega_fms.c:106-130 | changing any one payload byte always changes the checksum, so the receiver's comparison catches it |
| Protocol.Frame | Trabalho2/atividade_entrega_fms.c:164-168 | the frame is four bytes longer than the payload: STX, the length byte equal to the payload length, the payload itself, its checksum and ETX |
| Codec.CalculateChecksum | Trabalho2/atividade_entrega_fms.c:142-150 | the loop returns the checksum of `dados[0..qtd)`; for `qtd == 0` it returns 0 |
| Codec.CreateAsWritten | Trabalho2/atividade_entrega_fms.c:152-172 | the builder with the 8-bit `msg_size`: `InvalidParam` iff `qtd == 0`; `Error` iff `qtd > 0` and `*buffer_size < (5 + qtd) % 256`; `Success` otherwise; on success it writes the frame of `dados[0..qtd)` and reports `(5 + qtd) % 256`; otherwise it writes nothing and leaves the size |
| Codec.AsWrittenOverrunsBuffer | Trabalho2/atividade_entrega_fms.c:158-170 | for every `qtd >= 251` there are buffer sizes the size check accepts although the frame written is longer than the buffer |
| Codec.AsWrittenOverrunExample | Trabalho2/atividade_entrega_fms.c:158-170 | `qtd = 255` with a 4-byte buffer succeeds, reports size 4 and writes 259 bytes |
| Codec.Create | Trabalho2/atividade_entrega_fms.c:152-172 | `InvalidParam` iff `qtd == 0`; `Error` iff `qtd > 0` and the buffer size is below `5 + qtd`; `Success` iff the frame plus one byte fits the buffer; on success writes exactly `Frame(dados[0..qtd))` and reports one more than its length; otherwise writes nothing and leaves the size |
| Codec.CreateAgreesWithSource | Trabalho2/atividade_entrega_fms.c:152-172 | the corrected builder equals the source's wherever `5 + qtd` does not wrap (`qtd <= 250`), and refuses larger payloads with `Error` |
| Codec.CreateMessage | Trabalho2/atividade_entrega_fms.c:152-172 | the in-place builder returns `Create`'s status and size, writes `Create`'s bytes at the front of `buffer` and leaves the rest of the buffer unchanged |
| Codec.ChecksumExample | Trabalho2/atividade_entrega_fms.c:292-299 | the checksum of `{0x10, 0x20, 0x30}` is `0x60` |
| Codec.CreateExample | Trabalho2/atividade_entrega_fms.c:273-290 | framing `{0xAA, 0xBB, 0xCC}` into 10 bytes succeeds with size 8 and bytes `02 03 AA BB CC 31 03` |
| SwitchFsm.Initial | Trabalho2/atividade_entrega_fms.c:62-72 | the initialised registers wait for STX and satisfy the invariant |
| SwitchFsm.AfterReset | Trabalho2/atividade_entrega_fms.c:74-81 | after a reset the machine waits for STX with the invariant restored, whatever the registers held |
| SwitchFsm.Next | Trabalho2/atividade_entrega_fms.c:83-140 | only a byte in `WAIT_ETX` yields an outcome; it is `Success` exactly when the byte is ETX and the two checksums agree; in `MESSAGE_OK` or `MESSAGE_ERROR` any byte just resets |
| SwitchFsm.NextPreservesInv | Trabalho2/atividade_entrega_fms.c:83-140 | each call keeps the invariant: `dados_count < qtd_dados` while data arrive, so the counter never wraps and the index stays in the buffer; `checksum_calc` is always the checksum of the bytes received; `message_ready` is set exactly by the call returning `Success` |
| SwitchFsm.RunPreservesInv | Trabalho2/atividade_entrega_fms.c:83-140 | the invariant holds after any byte sequence |
| SwitchFsm.GarbageIgnored | Trabalho2/atividade_entrega_fms.c:87-95 | in `WAIT_STX`, bytes other than STX change nothing and each returns `WAITING` |
| SwitchFsm.DataStep | Trabalho2/atividade_entrega_fms.c:106-114 | a payload byte is stored at `dados[dados_count]`, the count goes up by one, the running checksum is extended, and the state moves on exactly at the last byte |
| SwitchFsm.DataPhase | Trabalho2/atividade_entrega_fms.c:106-114 | the remaining payload bytes land in order after those already stored, and the running checksum becomes the payload's checksum |
| SwitchFsm.Header | Trabalho2/atividade_entrega_fms.c:87-104 | STX and a non-zero length clear the counters and the flag, store the length and wait for data |
| SwitchFsm.ZeroLengthRejected | Trabalho2/atividade_entrega_fms.c:97-104 | STX followed by length 0 leaves the registers as a reset would, with no outcome |
| SwitchFsm.Trailer | Trabalho2/atividade_entrega_fms.c:116-130 | the checksum byte is stored; the end byte gives `MESSAGE_OK` and `Success` iff it is ETX and the checksums agree, else `MESSAGE_ERROR` and `Error` |
| SwitchFsm.FrameBody | Trabalho2/atividade_entrega_fms.c:106-130 | payload, checksum and end byte after a header leave the payload in the buffer and decide the outcome by comparing with the payload's checksum |
| SwitchFsm.ReceiveFrame | Trabalho2/atividade_entrega_fms.c:83-140 | a whole frame fed in `WAIT_STX` returns `WAITING` on every byte but the last; the last returns `Success` with `message_ready` set iff the end byte is ETX and the checksum byte is the payload's checksum, else `Error`; the payload sits in `dados[0..n)` and the rest of the buffer is untouched |
| SwitchFsm.CreateThenReceive | Trabalho2/atividade_entrega_fms.c:83-172 | every frame `protocol_create_message` builds is accepted by the receiver, with its payload and length delivered |
| SwitchFsm.CreateAsWrittenThenReceive | Trabalho2/atividade_entrega_fms.c:83-172 | whenever the builder as written succeeds, for any payload length including 251 and more, its bytes are accepted with payload and length delivered |
| SwitchFsm.CorruptedByteRejected | Trabalho2/atividade_entrega_fms.c:106-130 | a frame with one payload byte altered, carrying the original checksum, ends in `Error` with no message ready |
| SwitchFsm.BackToBackSecondFrameLost | Trabalho2/atividade_entrega_fms.c:132-136 | the STX right after an accepted frame is swallowed by the automatic reset, so a frame sent without a gap, with no further STX in it, yields no outcome |
| SwitchFsm.GarbageThenStxExample | Trabalho2/atividade_entrega_fms.c:257-271 | after `FF 00` the machine still waits for STX, and the following STX moves it to `WAIT_QTD` |
| SwitchFsm.StateTransitionsExample | Trabalho2/atividade_entrega_fms.c:301-321 | `02 01 42 42` walks through `WAIT_QTD`, `WAIT_DATA`, `WAIT_CHK` and `WAIT_ETX` |
| SwitchFsm.ValidMessageExample | Trabalho2/atividade_entrega_fms.c:218-237 | `02 02 10 20 30 03` gives `Success`, the ready flag, length 2 and data `10 20` |
| SwitchFsm.InvalidChecksumExample | Trabalho2/atividade_entrega_fms.c:239-255 | the same frame with checksum `FF` gives `Error` and no ready flag |
| SwitchFsm.ResetAfterMessageExample | Trabalho2/atividade_entrega_fms.c:323-341 | `02 01 42 42 03` ends in `MESSAGE_OK`, and any next byte returns the machine to `WAIT_STX` |
| SwitchFsm.ProtocolHandler.constructor | Trabalho2/atividade_entrega_fms.c:62-72 | a handler with a fresh 256-byte buffer, initialised as `protocol_init` leaves it |
| SwitchFsm.ProtocolHandler.Init | Trabalho2/atividade_entrega_fms.c:62-72 | all registers and every buffer byte are zero and the state is `WAIT_STX` |
| SwitchFsm.ProtocolHandler.Reset | Trabalho2/atividade_entrega_fms.c:74-81 | state, count, running checksum and flag are cleared; the length, the buffer and the received checksum are kept |
| SwitchFsm.ProtocolHandler.ProcessByte | Trabalho2/atividade_entrega_fms.c:83-140 | the in-place switch moves the fields exactly as `Next` does and returns its status; a valid handler stays valid |
| SwitchFsm.ProtocolHandler.MessageReady | Trabalho2/atividade_entrega_fms.c:174-176 | returns the flag, which on a valid handler is set exactly in `MESSAGE_OK` |
| SwitchFsm.ProtocolHandler.GetDataCount | Trabalho2/atividade_entrega_fms.c:182-184 | returns `qtd_dados`; when a message is ready, `dados[0..count)` is a non-empty payload whose checksum is the one received |
| TableFsm.Initial | Trabalho3/atvdd_fsm_tabela_de_estados.c:120-130 | the initialised registers point at `espera_stx` and satisfy the invariant |
| TableFsm.StepStx | Trabalho3/atvdd_fsm_tabela_de_estados.c:57-67 | `espera_stx` returns `WAITING`; STX moves to `espera_qtd` with count, running checksum and ready flag cleared, keeping payload, length and received checksum; any other byte changes nothing |
| TableFsm.StepQtd | Trabalho3/atvdd_fsm_tabela_de_estados.c:70-78 | `espera_qtd` returns `WAITING`; a non-zero byte is stored as the length and moves to `espera_dados`, zero goes back to `espera_stx` and keeps the old length; payload, count, both checksums and the ready flag are kept |
| TableFsm.StepDados | Trabalho3/atvdd_fsm_tabela_de_estados.c:81-92 | `espera_dados` returns `WAITING`; while the count is below the length, the byte is appended to the stored payload, the rest of the buffer is kept, the running checksum is extended by the byte modulo 256, the count goes up by one and the state becomes `espera_checksum` exactly at the last byte; length, received checksum and ready flag are kept |
| TableFsm.StepChecksum | Trabalho3/atvdd_fsm_tabela_de_estados.c:95-99 | `espera_checksum` returns `WAITING`, stores the byte as the received checksum and moves to `espera_etx`, keeping payload, length, count, running checksum and ready flag |
| TableFsm.StepEtx | Trabalho3/atvdd_fsm_tabela_de_estados.c:102-114 | `espera_etx` always returns to `espera_stx` with an outcome; `Success` iff the byte is ETX and the checksums agree; the ready flag is set by `Success` and otherwise kept; payload, length, count and both checksums are kept |
| TableFsm.Next | Trabalho3/atvdd_fsm_tabela_de_estados.c:57-114 | only `espera_etx` yields an outcome; it is `Success` exactly when the byte is ETX and the checksums agree; either way the next state is `espera_stx` |
| TableFsm.NextPreservesInv | Trabalho3/atvdd_fsm_tabela_de_estados.c:57-114 | each call keeps the invariant, so the counter never wraps or leaves the buffer; the ready flag is set by a `Success` and otherwise kept until an STX clears it |
| TableFsm.RunPreservesInv | Trabalho3/atvdd_fsm_tabela_de_estados.c:132-139 | the invariant holds after any byte sequence |
| TableFsm.GarbageIgnored | Trabalho3/atvdd_fsm_tabela_de_estados.c:57-67 | in `espera_stx`, bytes other than STX change nothing, not even a set ready flag |
| TableFsm.DataStep | Trabalho3/atvdd_fsm_tabela_de_estados.c:81-92 | a payload byte is stored, counted and added to the running checksum; the state moves on exactly at the last byte |
| TableFsm.DataPhase | Trabalho3/atvdd_fsm_tabela_de_estados.c:81-92 | the remaining payload bytes land in order and the running checksum becomes the payload's checksum |
| TableFsm.Header | Trabalho3/atvdd_fsm_tabela_de_estados.c:57-78 | STX and a non-zero length clear the counters and the flag, store the length and wait for data |
| TableFsm.ZeroLengthRejected | Trabalho3/atvdd_fsm_tabela_de_estados.c:70-78 | STX followed by length 0 goes back to `espera_stx` with the counters and the flag cleared |
| TableFsm.Trailer | Trabalho3/atvdd_fsm_tabela_de_estados.c:95-114 | the checksum byte is stored; the end byte gives `Success` and sets the flag iff it is ETX and the checksums agree, else `Error`; both return to `espera_stx` |
| TableFsm.FrameBody | Trabalho3/atvdd_fsm_tabela_de_estados.c:81-114 | payload, checksum and end byte after a header leave the payload in the buffer and decide the outcome |
| TableFsm.ReceiveFrame | Trabalho3/atvdd_fsm_tabela_de_estados.c:57-139 | a whole frame fed in `espera_stx`, whatever the flag, returns `WAITING` on every byte but the last; the last returns `Success` with the flag set iff the end byte is ETX and the checksum matches, else `Error`; the machine is back in `espera_stx` with the payload in `dados[0..n)` |
| TableFsm.CreateThenReceive | Trabalho3/atvdd_fsm_tabela_de_estados.c:132-171 | every frame the builder produces is accepted, with its payload and length delivered |
| TableFsm.CreateAsWrittenThenReceive | Trabalho3/atvdd_fsm_tabela_de_estados.c:57-171 | whenever the builder as written succeeds, for any payload length including 251 and more, its bytes are accepted with payload and length delivered |
| TableFsm.CorruptedByteRejected | Trabalho3/atvdd_fsm_tabela_de_estados.c:81-114 | a frame with one payload byte altered, carrying the original checksum, ends in `Error` with no message ready |
| TableFsm.BackToBackBothAccepted | Trabalho3/atvdd_fsm_tabela_de_estados.c:102-114 | two frames sent without a gap both give `Success`, and the buffer ends with the second payload |
| TableFsm.ReadyHeldUntilStx | Trabalho3/atvdd_fsm_tabela_de_estados.c:57-67 | after an accepted frame, the flag and the payload survive any non-STX bytes; the next STX clears the flag |
| TableFsm.GarbageThenStxExample | Trabalho3/atvdd_fsm_tabela_de_estados.c:255-269 | after `FF 00` the state is still `espera_stx`, and the following STX moves it to `espera_qtd` |
| TableFsm.ValidMessageExample | Trabalho3/atvdd_fsm_tabela_de_estados.c:217-234 | `02 01 42 42 03` gives `Success`, the flag, length 1 and data `42` |
| TableFsm.WrongChecksumExample | Trabalho3/atvdd_fsm_tabela_de_estados.c:237-252 | the same frame with checksum `99` gives `Error` and no flag |
| TableFsm.TwoMessagesExample | Trabalho3/atvdd_fsm_tabela_de_estados.c:272-297 | two one-byte frames in a row both succeed and the buffer holds `20` at the end |
| TableFsm.ProtocolHandler.constructor | Trabalho2/Trabalho3/atvdd_fsm_tabela_de_estados.c:120-130 | a handler with a fresh 256-byte buffer, initialised as `protocol_init` leaves it |
| TableFsm.ProtocolHandler.Init | Trabalho2/Trabalho3/atvdd_fsm_tabela_de_estados.c:120-130 | all registers and buffer bytes are zero and the state pointer is `espera_stx` |
| TableFsm.ProtocolHandler.EsperaStx | Trabalho2/Trabalho3/atvdd_fsm_tabela_de_estados.c:57-67 | the fields move as the `espera_stx` transition says |
| TableFsm.ProtocolHandler.EsperaQtd | Trabalho2/Trabalho3/atvdd_fsm_tabela_de_estados.c:70-78 | the fields move as the `espera_qtd` transition says |
| TableFsm.ProtocolHandler.EsperaDados | Trabalho2/Trabalho3/atvdd_fsm_tabela_de_estados.c:81-92 | the byte is written into the array at the count and the fields move as the `espera_dados` transition says |
| TableFsm.ProtocolHandler.EsperaChecksum | Trabalho2/Trabalho3/atvdd_fsm_tabela_de_estados.c:95-99 | the fields move as the `espera_checksum` transition says |
| TableFsm.ProtocolHandler.EsperaEtx | Trabalho2/Trabalho3/atvdd_fsm_tabela_de_estados.c:102-114 | the fields move as the `espera_etx` transition says, and its status is returned |
| TableFsm.ProtocolHandler.ProcessByte | Trabalho2/Trabalho3/atvdd_fsm_tabela_de_estados.c:132-139 | dispatching on the state field moves the fields exactly as `Next` does; a valid handler stays valid |
| TableFsm.ProtocolHandler.MessageReady | Trabalho2/Trabalho3/atvdd_fsm_tabela_de_estados.c:173-175 | returns the flag; on a valid handler a set flag means the machine waits for STX and a non-empty payload in the buffer matches the received checksum |
| TableFsm.ProtocolHandler.GetDataCount | Trabalho2/Trabalho3/atvdd_fsm_tabela_de_estados.c:181-183 | returns `qtd_dados`; when a message is ready, `dados[0..count)` is a non-empty payload whose checksum is the one received |

## Left out

- Null-pointer guards are not modelled. The `!handler`, `!dados`, `!buffer` and `!buffer_size` tests return early or return `PROTOCOL_INVALID_PARAM`, but Dafny references cannot be null, so in the model `InvalidParam` comes only from `qtd == 0`.
- The `!handler->estado_atual` test in the Trabalho3 `protocol_process_byte` is not modelled. After `protocol_init` the pointer always points at one of the five state functions, so the model's `State` has no null value.
- `protocol_get_data` is not modelled as a separate method. It returns the address of `dados`, which the model exposes as the class's `dados` array.
- The test harness is not modelled: `main`, the minUnit macros and `printf`. Its test cases are restated as the `*Example` lemmas.
- The handler's contents before `protocol_init` are not modelled as a separate state. `Next` accepts any register values, but `Valid()` is established only by `Init`, the constructor or, in `SwitchFsm`, `Reset`.
- Codec.CreateMessage: requires `dados` and `buffer` to be different arrays, because `memcpy` on overlapping memory is undefined. It also requires `buffer` to hold at least `*buffer_size` bytes, which the C code trusts its caller to guarantee.
- Codec.CreateMessage: implements the corrected size check. The size check as written is `Codec.CreateAsWritten` (see Findings).
- SwitchFsm.ProtocolHandler.ProcessByte and TableFsm.ProtocolHandler.ProcessByte: `PROTOCOL_INVALID_PARAM` for a null handler is not modelled, for the reason above.
- T4 - PROTOTHREAD/protothread.c is not part of this model. It is a different program (a protothread transmitter and receiver) that does not call this protocol code.

## Findings

| source | as written | input that shows it | evidently intended | confidence | as-written member | corrected member |
|---|---|---|---|---|---|---|
| Trabalho2/atividade_entrega_fms.c:158-170 (same code at Trabalho3/atvdd_fsm_tabela_de_estados.c:157-169) | `uint8_t msg_size = 5 + qtd` wraps modulo 256 for `qtd >= 251`, so `*buffer_size < msg_size` compares against a small number | `qtd = 255`, `*buffer_size = 4`: `msg_size` is 4, the check passes, 259 bytes are written into a 4-byte buffer and the size is reported as 4 | refuse every payload whose frame does not fit, computing the size without wrap-around | high, not executed | Codec.CreateAsWritten, Codec.AsWrittenOverrunsBuffer | Codec.Create, Codec.CreateMessage |

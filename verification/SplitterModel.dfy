/** The fields of the message splitter and of the registry of expected responses,
    and what each method of the splitter does to them. */
module SplitterModel {
  import opened WireTypes

  /** The fields of `message_splitter`; of a waiter and of the function that
      begins a header parse only matters whether it is set. */
  datatype Splitter = Splitter(
    locked: bool,
    parsingHeader: bool,
    waitingForRequest: bool,
    waitingForResponse: bool,
    beginParseMessage: bool)

  function Fresh(): Splitter {
    Splitter(false, false, false, false, false)
  }

  predicate HasWaiter(s: Splitter) {
    s.waitingForRequest || s.waitingForResponse
  }

  /** The fields afterwards, whether a header parse starts, and whether all the
      assertions on the way held. */
  datatype Effect = Effect(after: Splitter, starts: bool, asserted: bool, begun: bool)

  /** Calling `begin_parse_message`. Nothing can be called when it is not set. */
  function BeginParse(s: Splitter): Effect {
    if !s.beginParseMessage then Effect(s, false, true, false)
    else if s.locked then Effect(s, false, !s.parsingHeader && HasWaiter(s), true)
    else Effect(s.(beginParseMessage := false, parsingHeader := true), true, !s.parsingHeader && HasWaiter(s), true)
  }

  function Unless(alreadyAsserted: bool, e: Effect): Effect {
    e.(asserted := alreadyAsserted && e.asserted)
  }

  function WaitForResponse(s: Splitter): Effect {
    var s' := s.(waitingForResponse := true, beginParseMessage := true);
    if s.parsingHeader then Effect(s', false, !s.waitingForResponse, true)
    else Unless(!s.waitingForResponse, BeginParse(s'))
  }

  function WaitForRequest(s: Splitter): Effect {
    var s' := s.(waitingForRequest := true, beginParseMessage := true);
    if s.parsingHeader then Effect(s', false, !s.waitingForRequest, true)
    else Unless(!s.waitingForRequest, BeginParse(s'))
  }

  function LockInput(s: Splitter): Effect {
    Effect(s.(locked := true), false, !s.parsingHeader && !s.locked, true)
  }

  function UnlockInput(s: Splitter): Effect {
    var s' := s.(locked := false);
    if !HasWaiter(s') then Effect(s', false, !s.parsingHeader && s.locked, true)
    else Unless(!s.parsingHeader && s.locked, BeginParse(s'))
  }

  /** The end of `parse_request_operation` and `parse_response_operation`:
      `other` is the waiter of the other kind, `continue_` whether it was there
      when the header was decoded. */
  function ContinueFor(s: Splitter, continue_: bool, other: bool): Effect {
    if continue_ && other && !s.parsingHeader then BeginParse(s) else Effect(s, false, true, true)
  }

  // ----- the registry -----

  datatype ResponseState = NotExpectingResponse | ParsingHeader | ParsingResult

  /** `expected_response_registry`: for every pending request the type its result
      is to be parsed as. */
  datatype Registry = Registry(state: ResponseState, expected: map<nat, Type>)

  /** An id that is already there keeps its entry. */
  function Inserted(expected: map<nat, Type>, id: nat, t: Type): map<nat, Type> {
    if id in expected then expected else expected[id := t]
  }
}

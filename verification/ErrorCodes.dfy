/** The closed set of public error codes that e2e/schema-metadata.ts lets through. */
module ErrorCodes {
  import opened Options

  const SAFE_API_ERROR_CODES: seq<string> := [
    "InvalidArgument", "TargetRequired", "TargetConflict", "TargetUnsupported", "SessionNotFound", "SessionLost",
    "RuntimeEpochMismatch", "ContextConflict", "PermissionDenied", "ResourceBusy", "QueueFull",
    "TransactionResolutionRequired", "CapabilityUnsupported", "UnsupportedPlan", "EndpointOverlap",
    "SessionQuotaExceeded", "IdempotencyExpired", "RollbackFailed", "CleanupFailed", "OutcomeUnknown", "PlanStale",
    "SourceChanged", "TargetConflictRows", "IdempotencyConflict", "Unauthenticated", "NotFound", "PayloadTooLarge",
    "QuotaExceeded", "RateLimited", "ServiceUnavailable", "ConfigRevisionMismatch"]

  const IPC_ERROR := "IPC_ERROR"

  predicate IsLetter(c: char) { 'A' <= c <= 'Z' || 'a' <= c <= 'z' }
  predicate IsWordChar(c: char) { IsLetter(c) || '0' <= c <= '9' }
  predicate IsWord(s: string) { s != "" && IsLetter(s[0]) && forall i :: 0 <= i < |s| ==> IsWordChar(s[i]) }

  /** How many leading characters are letters or digits. */
  function WordLength(s: string): (n: nat)
    ensures n <= |s| && (forall i :: 0 <= i < n ==> IsWordChar(s[i])) && (n < |s| ==> !IsWordChar(s[n]))
  {
    if s != "" && IsWordChar(s[0]) then 1 + WordLength(s[1..]) else 0
  }

  /** The code of a message of the form "<code>: <text>"; "" if it has none. */
  function LeadingCode(message: string): string {
    var n := WordLength(message);
    if n > 0 && IsLetter(message[0]) && n < |message| && message[n] == ':' then message[..n] else ""
  }

  function LowerFirst(code: string): string {
    if code != "" && 'A' <= code[0] <= 'Z' then [code[0] - 'A' + 'a'] + code[1..] else code
  }

  function KnownByWireCode(known: seq<string>, code: string): Option<string> {
    if known == [] then None
    else if LowerFirst(known[0]) == code then Some(known[0])
    else KnownByWireCode(known[1..], code)
  }

  /** An error as the probe sees it: its `code` property ("" if it has none) and its message. */
  function SafeApiErrorCode(code: string, message: string): string {
    var found := if code != "" then code else LeadingCode(message);
    if found == "" then IPC_ERROR
    else if found in SAFE_API_ERROR_CODES then found
    else
      match KnownByWireCode(SAFE_API_ERROR_CODES, found)
      case None => IPC_ERROR
      case Some(known) => known
  }

  lemma {:induction false} WireCodeIsKnown(known: seq<string>, code: string)
    ensures match KnownByWireCode(known, code)
      case None => forall k :: k in known ==> LowerFirst(k) != code
      case Some(k) => k in known && LowerFirst(k) == code
  {
    if known != [] {
      WireCodeIsKnown(known[1..], code);
    }
  }

  /** No text of an error ever leaves: the reason is one of the closed set or IPC_ERROR. */
  lemma ReasonIsFromClosedSet(code: string, message: string)
    ensures SafeApiErrorCode(code, message) in SAFE_API_ERROR_CODES || SafeApiErrorCode(code, message) == IPC_ERROR
  {
    var found := if code != "" then code else LeadingCode(message);
    WireCodeIsKnown(SAFE_API_ERROR_CODES, found);
  }

  /** What is read as the code of a message: one word of letters and digits that starts with a letter, with
      a colon right after it, and nothing else. */
  lemma LeadingCodeExactlyWhen(message: string, code: string)
    requires code != ""
    ensures LeadingCode(message) == code <==>
      && code + ":" <= message && ('A' <= code[0] <= 'Z' || 'a' <= code[0] <= 'z')
      && forall i :: 0 <= i < |code| ==> 'A' <= code[i] <= 'Z' || 'a' <= code[i] <= 'z' || '0' <= code[i] <= '9'
  {
    if IsWord(code) && code + ":" <= message {
      var text := message[|code| + 1..];
      assert message == code + ":" + text;
      MessageCodeIsRead(code, text);
    }
    if LeadingCode(message) == code {
      assert message[..|code| + 1] == code + ":";
    }
  }

  /** Anything else is masked: a reason outside the set, in both spellings, is reported as IPC_ERROR. */
  lemma UnknownReasonsAreMasked(code: string, message: string)
    ensures
      var found := if code != "" then code else LeadingCode(message);
      found !in SAFE_API_ERROR_CODES && (forall known :: known in SAFE_API_ERROR_CODES ==> LowerFirst(known) != found) ==>
        SafeApiErrorCode(code, message) == "IPC_ERROR"
  {
    WireCodeIsKnown(SAFE_API_ERROR_CODES, if code != "" then code else LeadingCode(message));
  }

  /** A backend error "<code>: <text>" is recognized by its code, whatever the text. */
  lemma MessageCodeIsRead(code: string, text: string)
    requires IsWord(code)
    ensures LeadingCode(code + ":" + text) == code
  {
    var message := code + ":" + text;
    var n := WordLength(message);
    assert message[|code|] == ':';
    assert forall i :: 0 <= i < |code| ==> message[i] == code[i];
    assert n == |code|;
  }

  lemma {:induction false} WireCodeIsFound(known: seq<string>, code: string)
    requires code in known
    requires AllCapitalized(known)
    ensures KnownByWireCode(known, LowerFirst(code)) == Some(code)
  {
    var i :| 0 <= i < |known| && known[i] == code;
    if known[0] != code {
      if LowerFirst(known[0]) == LowerFirst(code) {
        LowerFirstIsInjective(known[0], code);
      }
      assert known[1..][i - 1] == code;
      WireCodeIsFound(known[1..], code);
    }
  }

  predicate IsCapitalized(code: string) { code != "" && 'A' <= code[0] <= 'Z' }

  predicate AllCapitalized(codes: seq<string>) {
    forall i :: 0 <= i < |codes| ==> IsCapitalized(codes[i])
  }

  lemma LowerFirstIsInjective(a: string, b: string)
    requires IsCapitalized(a) && IsCapitalized(b) && LowerFirst(a) == LowerFirst(b)
    ensures a == b
  {
    assert a == [a[0]] + a[1..] && b == [b[0]] + b[1..];
    assert LowerFirst(a)[0] == a[0] - 'A' + 'a' && LowerFirst(a)[1..] == a[1..];
    assert LowerFirst(b)[0] == b[0] - 'A' + 'a' && LowerFirst(b)[1..] == b[1..];
  }

  lemma CodesAreCapitalized()
    ensures AllCapitalized(SAFE_API_ERROR_CODES)
  {
  }

  /** The two spellings of a code, canonical and wire (first letter in lower case), name the same code. */
  lemma WireSpellingIsRecognized(code: string, message: string)
    requires code in SAFE_API_ERROR_CODES
    ensures SafeApiErrorCode(code, message) == code && SafeApiErrorCode(LowerFirst(code), message) == code
  {
    CodesAreCapitalized();
    WireCodeIsFound(SAFE_API_ERROR_CODES, code);
    assert !IsCapitalized(LowerFirst(code));
  }

  lemma ResourceBusyIsRecognized(text: string)
    ensures SafeApiErrorCode("", "ResourceBusy" + ":" + text) == "ResourceBusy"
  {
    MessageCodeIsRead("ResourceBusy", text);
    assert SAFE_API_ERROR_CODES[9] == "ResourceBusy";
  }
}

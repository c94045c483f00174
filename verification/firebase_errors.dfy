/**
 * The error classifiers of `src/lib/firebaseHealth.ts`: which failures count
 * as "blocked by the client", which are worth retrying, and the user-facing
 * text chosen for a failure. All three are case-sensitive substring tests on
 * the error's message plus exact tests on its code.
 */
module FirebaseErrors {
  import opened Strings

  /**
   * A thrown value as the classifiers read it. The source reads
   * `error.message || ''` and `error.code || ''`, so an absent field is
   * the empty string here.
   */
  datatype ErrorInfo = ErrorInfo(message: string, code: string)

  const BlockedMarker: string := "ERR_BLOCKED_BY_CLIENT"
  const NetBlockedMarker: string := "net::ERR_BLOCKED_BY_CLIENT"
  const NetworkMarker: string := "ERR_NETWORK"
  const CancelledMarker: string := "Route Cancelled"
  const OpenerPolicyMarker: string := "Cross-Origin-Opener-Policy"

  /** The three codes that both classifiers accept. */
  predicate IsTransientCode(code: string) {
    code == "unavailable" || code == "permission-denied" || code == "cancelled"
  }

  /** The health checker's test for a connection blocked by an extension or ad blocker. */
  predicate IsBlockedByClient(e: ErrorInfo) {
    || Contains(e.message, BlockedMarker)
    || Contains(e.message, NetBlockedMarker)
    || Contains(e.message, NetworkMarker)
    || Contains(e.message, CancelledMarker)
    || IsTransientCode(e.code)
  }

  /** `withRetry`'s test for a failure worth another attempt. */
  predicate IsRetryableError(e: ErrorInfo) {
    || Contains(e.message, BlockedMarker)
    || Contains(e.message, NetBlockedMarker)
    || Contains(e.message, CancelledMarker)
    || Contains(e.message, OpenerPolicyMarker)
    || IsTransientCode(e.code)
  }

  const BlockedText: string := "Connection blocked by security software. Please check your ad blocker or security extensions."
  const CancelledText: string := "Navigation was cancelled. Please try again."
  const OpenerPolicyText: string := "Browser security policy is blocking the operation. Please check your browser settings."
  const UserNotFoundText: string := "User not found. Please check your email and try again."
  const WrongPasswordText: string := "Incorrect password. Please try again."
  const TooManyRequestsText: string := "Too many failed attempts. Please try again later."
  const NetworkFailedText: string := "Network error. Please check your internet connection."
  const UnexpectedText: string := "An unexpected error occurred. Please try again."

  /** Every text `handleFirebaseError` can produce other than the message itself. */
  const FixedTexts: set<string> := {
    BlockedText, CancelledText, OpenerPolicyText, UserNotFoundText,
    WrongPasswordText, TooManyRequestsText, NetworkFailedText, UnexpectedText
  }

  /** The four authentication codes that have a text of their own. */
  predicate IsKnownAuthCode(code: string) {
    || code == "auth/user-not-found" || code == "auth/wrong-password"
    || code == "auth/too-many-requests" || code == "auth/network-request-failed"
  }

  /** True when one of the three message markers `handleFirebaseError` tests is present. */
  predicate HasMessageMarker(message: string) {
    Contains(message, BlockedMarker) || Contains(message, CancelledMarker)
    || Contains(message, OpenerPolicyMarker)
  }

  /**
   * `handleFirebaseError`: message markers first (blocked, cancelled, opener
   * policy), then the authentication codes, then the message itself, then a
   * default text.
   */
  function HandleFirebaseError(e: ErrorInfo): (text: string)
    ensures text != ""
    ensures Contains(e.message, BlockedMarker) ==> text == BlockedText
    ensures !Contains(e.message, BlockedMarker) && Contains(e.message, CancelledMarker) ==> text == CancelledText
    ensures (!Contains(e.message, BlockedMarker) && !Contains(e.message, CancelledMarker)
             && Contains(e.message, OpenerPolicyMarker)) ==> text == OpenerPolicyText
    ensures !HasMessageMarker(e.message) && e.code == "auth/user-not-found" ==> text == UserNotFoundText
    ensures !HasMessageMarker(e.message) && e.code == "auth/wrong-password" ==> text == WrongPasswordText
    ensures !HasMessageMarker(e.message) && e.code == "auth/too-many-requests" ==> text == TooManyRequestsText
    ensures !HasMessageMarker(e.message) && e.code == "auth/network-request-failed" ==> text == NetworkFailedText
    ensures HasMessageMarker(e.message) || IsKnownAuthCode(e.code) ==> text in FixedTexts
    ensures !HasMessageMarker(e.message) && !IsKnownAuthCode(e.code) ==>
              text == (if e.message != "" then e.message else UnexpectedText)
    ensures text == e.message || text in FixedTexts
  {
    if Contains(e.message, BlockedMarker) then BlockedText
    else if Contains(e.message, CancelledMarker) then CancelledText
    else if Contains(e.message, OpenerPolicyMarker) then OpenerPolicyText
    else if e.code == "auth/user-not-found" then UserNotFoundText
    else if e.code == "auth/wrong-password" then WrongPasswordText
    else if e.code == "auth/too-many-requests" then TooManyRequestsText
    else if e.code == "auth/network-request-failed" then NetworkFailedText
    else if e.message != "" then e.message
    else UnexpectedText
  }

  /** The "net::" marker is redundant: any message holding it holds the bare marker too. */
  lemma NetMarkerImpliesBareMarker(message: string)
    ensures Contains(message, NetBlockedMarker) ==> Contains(message, BlockedMarker)
  {
    if Contains(message, NetBlockedMarker) {
      assert NetBlockedMarker[5..] == BlockedMarker;
      assert OccursAt(NetBlockedMarker, BlockedMarker, 5);
      ContainsTransitive(message, NetBlockedMarker, BlockedMarker);
    }
  }

  /** The opener-policy marker holds none of the blocked-connection markers. */
  lemma OpenerPolicyLacksBlockedMarkers()
    ensures !Contains(OpenerPolicyMarker, BlockedMarker)
    ensures !Contains(OpenerPolicyMarker, NetworkMarker)
    ensures !Contains(OpenerPolicyMarker, CancelledMarker)
  {
    NotContainsForMissingChar(OpenerPolicyMarker, BlockedMarker, 'B');
    NotContainsForMissingChar(OpenerPolicyMarker, NetworkMarker, 'E');
    NotContainsForMissingChar(OpenerPolicyMarker, CancelledMarker, 'R');
  }

  /** A message free of the blocked-connection markers, with no code, is not a blocked connection. */
  lemma NotBlockedWithoutMarkers(message: string)
    requires !Contains(message, BlockedMarker) && !Contains(message, NetworkMarker)
    requires !Contains(message, CancelledMarker)
    ensures !IsBlockedByClient(ErrorInfo(message, ""))
  {
    NetMarkerImpliesBareMarker(message);
  }

  /** An opener-policy warning is retried but not counted as a blocked connection. */
  lemma OpenerPolicyRetryableNotBlocked()
    ensures IsRetryableError(ErrorInfo(OpenerPolicyMarker, ""))
    ensures !IsBlockedByClient(ErrorInfo(OpenerPolicyMarker, ""))
  {
    ContainsSelf(OpenerPolicyMarker);
    OpenerPolicyLacksBlockedMarkers();
    NotBlockedWithoutMarkers(OpenerPolicyMarker);
  }

  /** A network error is counted as a blocked connection but not retried. */
  lemma NetworkErrorBlockedNotRetryable()
    ensures IsBlockedByClient(ErrorInfo(NetworkMarker, ""))
    ensures !IsRetryableError(ErrorInfo(NetworkMarker, ""))
  {
    ContainsSelf(NetworkMarker);
  }

  /**
   * Every failure the retry loop accepts because of its message is shown to
   * the user with a fixed text, never the raw message.
   */
  lemma RetryableMessagesGetFixedText(e: ErrorInfo)
    requires IsRetryableError(e.(code := ""))
    ensures HandleFirebaseError(e) in {BlockedText, CancelledText, OpenerPolicyText}
  {
    NetMarkerImpliesBareMarker(e.message);
  }

  /**
   * Outside the message markers the decision follows the code: each known
   * authentication code gets its own text whatever the message says.
   */
  lemma AuthCodeTexts(e: ErrorInfo)
    requires !HasMessageMarker(e.message)
    ensures e.code == "auth/user-not-found" ==> HandleFirebaseError(e) == UserNotFoundText
    ensures e.code == "auth/wrong-password" ==> HandleFirebaseError(e) == WrongPasswordText
    ensures e.code == "auth/too-many-requests" ==> HandleFirebaseError(e) == TooManyRequestsText
    ensures e.code == "auth/network-request-failed" ==> HandleFirebaseError(e) == NetworkFailedText
  {
  }
}

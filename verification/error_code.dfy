/**
 * The handler error-code taxonomy: a closed enumeration of fifteen codes, the
 * table of their canonical names, name rendering (`Status.String`), the
 * case-insensitive name lookup (`Convert`), and the Terminal/Retriable
 * classification that the Go code documents next to each constant.
 */
module ErrorCode {
  import opened Wrappers

  /** A status is any integer, as with Go's `type Status int`; only 0..14 are named. */
  type Status = int

  const Unknown: Status := 0
  const NotUpdatable: Status := 1
  const InvalidRequest: Status := 2
  const AccessDenied: Status := 3
  const InvalidCredentials: Status := 4
  const AlreadyExists: Status := 5
  const NotFound: Status := 6
  const ResourceConflict: Status := 7
  const Throttling: Status := 8
  const ServiceLimitExceeded: Status := 9
  const NotStabilized: Status := 10
  const GeneralServiceException: Status := 11
  const ServiceInternalError: Status := 12
  const NetworkFailure: Status := 13
  const InternalFailure: Status := 14

  /** The canonical names, indexed by code. */
  const Names: seq<string> := [
    "Unknown",
    "NotUpdatable",
    "InvalidRequest",
    "AccessDenied",
    "InvalidCredentials",
    "AlreadyExists",
    "NotFound",
    "ResourceConflict",
    "Throttling",
    "ServiceLimitExceeded",
    "NotStabilized",
    "GeneralServiceException",
    "ServiceInternalError",
    "NetworkFailure",
    "InternalFailure"
  ]

  /** The codes that have a constant of their own. */
  predicate IsDefined(c: Status) {
    Unknown <= c <= InternalFailure
  }

  /** `Status.String`: the canonical name, or "Unknown" outside NotUpdatable..InternalFailure. */
  function Name(c: Status): (s: string)
    ensures s == "Unknown" <==> !(NotUpdatable <= c <= InternalFailure)
  {
    if c < NotUpdatable || c > InternalFailure then "Unknown" else Names[c]
  }

  // ---------------------------------------------------------------------------
  // ASCII case mapping (the model of `strings.ToUpper` / `strings.ToLower`)
  // ---------------------------------------------------------------------------

  function UpperChar(ch: char): char {
    if 'a' <= ch <= 'z' then (ch as int - 32) as char else ch
  }

  function LowerChar(ch: char): char {
    if 'A' <= ch <= 'Z' then (ch as int + 32) as char else ch
  }

  /** Upper-cases every ASCII letter and leaves every other character alone. */
  function Upper(s: string): (u: string)
    ensures |u| == |s|
    ensures forall i :: 0 <= i < |s| ==> u[i] == UpperChar(s[i])
  {
    if s == [] then [] else [UpperChar(s[0])] + Upper(s[1..])
  }

  /** Lower-cases every ASCII letter and leaves every other character alone. */
  function Lower(s: string): (l: string)
    ensures |l| == |s|
    ensures forall i :: 0 <= i < |s| ==> l[i] == LowerChar(s[i])
  {
    if s == [] then [] else [LowerChar(s[0])] + Lower(s[1..])
  }

  // ---------------------------------------------------------------------------
  // Convert
  // ---------------------------------------------------------------------------

  /** No entry of `table` at or after index `i` matches `key` once upper-cased. */
  predicate NoMatchFrom(table: seq<string>, key: string, i: nat) {
    forall j :: i <= j < |table| ==> Upper(table[j]) != key
  }

  /**
   * The scan of a name table from index `i`: the first index whose
   * upper-cased entry equals `key`, or Unknown when there is none.
   */
  function FirstMatch(table: seq<string>, key: string, i: nat): (c: Status)
    requires i <= |table|
    decreases |table| - i
    ensures !NoMatchFrom(table, key, i) ==>
              && i <= c < |table|
              && Upper(table[c]) == key
              && forall j :: i <= j < c ==> Upper(table[j]) != key
    ensures NoMatchFrom(table, key, i) ==> c == Unknown
  {
    if i == |table| then Unknown
    else if Upper(table[i]) == key then i
    else FirstMatch(table, key, i + 1)
  }

  /** `Convert`: case-insensitive lookup of a name; Unknown when nothing matches. */
  function Convert(s: string): (c: Status)
    ensures IsDefined(c)
    ensures c != Unknown ==> Upper(Names[c]) == Upper(s)
    ensures NoMatchFrom(Names, Upper(s), 0) ==> c == Unknown
  {
    FirstMatch(Names, Upper(s), 0)
  }

  // ---------------------------------------------------------------------------
  // Classification, as documented on each constant
  // ---------------------------------------------------------------------------

  datatype Class = Terminal | Retriable

  /** The documented class of a code; Unknown and undefined codes have none. */
  function ClassOf(c: Status): (r: Option<Class>)
    ensures r.Some? <==> NotUpdatable <= c <= InternalFailure
    ensures r == Some(Retriable) ==> c in {ResourceConflict, Throttling, NotStabilized, ServiceInternalError, NetworkFailure}
  {
    if c in {NotUpdatable, InvalidRequest, AccessDenied, InvalidCredentials, AlreadyExists,
             NotFound, ServiceLimitExceeded, GeneralServiceException, InternalFailure}
    then Some(Terminal)
    else if c in {ResourceConflict, Throttling, NotStabilized, ServiceInternalError, NetworkFailure}
    then Some(Retriable)
    else None
  }

  // ---------------------------------------------------------------------------
  // Lemmas
  // ---------------------------------------------------------------------------

  /** The name table lists the constants in their declaration order. */
  lemma NamesFollowConstants()
    ensures |Names| == InternalFailure + 1
    ensures Name(NotUpdatable) == "NotUpdatable"
    ensures Name(InvalidRequest) == "InvalidRequest"
    ensures Name(AccessDenied) == "AccessDenied"
    ensures Name(InvalidCredentials) == "InvalidCredentials"
    ensures Name(AlreadyExists) == "AlreadyExists"
    ensures Name(NotFound) == "NotFound"
    ensures Name(ResourceConflict) == "ResourceConflict"
    ensures Name(Throttling) == "Throttling"
    ensures Name(ServiceLimitExceeded) == "ServiceLimitExceeded"
    ensures Name(NotStabilized) == "NotStabilized"
    ensures Name(GeneralServiceException) == "GeneralServiceException"
    ensures Name(ServiceInternalError) == "ServiceInternalError"
    ensures Name(NetworkFailure) == "NetworkFailure"
    ensures Name(InternalFailure) == "InternalFailure"
    ensures Name(Unknown) == "Unknown"
  {
  }

  /** Every value outside the named range, including Unknown itself, renders as "Unknown". */
  lemma NameOutsideRange(c: Status)
    requires c < NotUpdatable || c > InternalFailure
    ensures Name(c) == "Unknown"
  {
  }

  /** Upper-casing is idempotent. */
  lemma UpperIdempotent(s: string)
    ensures Upper(Upper(s)) == Upper(s)
  {
  }

  /** Upper-casing forgets a previous lower-casing. */
  lemma UpperOfLower(s: string)
    ensures Upper(Lower(s)) == Upper(s)
  {
  }

  /** Length, first and eighth letter, ignoring case: enough to tell the table entries apart. */
  function Fingerprint(s: string): (int, char, char) {
    (|s|, if |s| > 0 then UpperChar(s[0]) else ' ', if |s| > 7 then UpperChar(s[7]) else ' ')
  }

  lemma FingerprintOfUpper(s: string)
    ensures Fingerprint(Upper(s)) == Fingerprint(s)
  {
  }

  /** No two table entries are equal once upper-cased. */
  lemma UpperNamesDistinct(i: nat, j: nat)
    requires i < j < |Names|
    ensures Upper(Names[i]) != Upper(Names[j])
  {
    assert Fingerprint(Names[i]) != Fingerprint(Names[j]);
    FingerprintOfUpper(Names[i]);
    FingerprintOfUpper(Names[j]);
  }

  /** `Convert` is case-insensitive. */
  lemma ConvertIgnoresCase(s: string)
    ensures Convert(Upper(s)) == Convert(s)
    ensures Convert(Lower(s)) == Convert(s)
  {
    UpperIdempotent(s);
    UpperOfLower(s);
  }

  /** Rendering a defined code and looking the name up again gives the code back. */
  lemma ConvertName(c: Status)
    requires IsDefined(c)
    ensures Convert(Name(c)) == c
  {
    var key := Upper(Names[c]);
    assert Name(c) == Names[c];
    assert !NoMatchFrom(Names, key, 0);
    var r := FirstMatch(Names, key, 0);
    assert Upper(Names[r]) == key;
    if r < c {
      UpperNamesDistinct(r, c);
    }
  }

  /**
   * `Convert` picks out a named code exactly when the input spells that
   * code's name in some mix of cases.
   */
  lemma ConvertExactly(s: string, c: Status)
    requires NotUpdatable <= c <= InternalFailure
    ensures Convert(s) == c <==> Upper(s) == Upper(Name(c))
  {
    if Upper(s) == Upper(Name(c)) {
      ConvertName(c);
      ConvertIgnoresCase(s);
      ConvertIgnoresCase(Name(c));
    }
  }

  /** The Terminal and Retriable classes are disjoint and, with Unknown, cover the enumeration. */
  lemma ClassificationPartition(c: Status)
    ensures ClassOf(c).Some? <==> NotUpdatable <= c <= InternalFailure
    ensures ClassOf(c) == Some(Retriable) <==>
              c in {ResourceConflict, Throttling, NotStabilized, ServiceInternalError, NetworkFailure}
    ensures ClassOf(c) == None <==> c == Unknown || !IsDefined(c)
  {
  }

  /** A string whose fingerprint matches no table entry's converts to Unknown. */
  lemma ConvertUnmatched(s: string)
    requires forall j :: 0 <= j < |Names| ==> Fingerprint(s) != Fingerprint(Names[j])
    ensures Convert(s) == Unknown
  {
  }

  /** `t` is the upper-case spelling of `s` exactly when it agrees with it character by character. */
  lemma UpperPointwise(s: string, t: string)
    requires |s| == |t|
    requires forall i :: 0 <= i < |s| ==> UpperChar(s[i]) == t[i]
    ensures Upper(s) == t
  {
  }

  /** A code name is found in its upper-case spelling. */
  lemma ConvertUpperCaseExample()
    ensures Convert("THROTTLING") == Throttling
  {
    assert Name(Throttling) == "Throttling";
    UpperPointwise("Throttling", "THROTTLING");
    UpperIdempotent("Throttling");
    ConvertExactly("THROTTLING", Throttling);
  }

  /** A code name is found in its lower-case spelling. */
  lemma ConvertLowerCaseExample()
    ensures Convert("throttling") == Throttling
  {
    UpperPointwise("throttling", "THROTTLING");
    ConvertIgnoresCase("throttling");
    ConvertUpperCaseExample();
  }

  /** A string that names no code converts to Unknown. */
  lemma ConvertUnknownExample()
    ensures Convert("not-a-code") == Unknown
  {
    ConvertUnmatched("not-a-code");
  }
}

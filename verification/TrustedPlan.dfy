/** Signing, verification and key rotation of handed-off plans (trusted_plan.py). */
module TrustedPlan {
  import opened Basics
  import opened Text
  import JsonText

  /** HMAC-SHA256 as a hexadecimal digest: any function of key and message with 64 characters. */
  type Mac = mac: (string, string) -> string | forall k, m :: |mac(k, m)| == 64
    witness (k: string, m: string) => "0000000000000000000000000000000000000000000000000000000000000000"

  /** `s.strip().lower()` */
  function Fold(s: string): string {
    Lower(Strip(s))
  }

  // ---- The keyring ------------------------------------------------------------------------------------------------------

  const ENV_KEY_PREFIX := "AIFACTORY_TRUSTED_PLAN_KEY_"

  predicate SepAt(s: string, i: int) {
    0 <= i < |s| - 1 && s[i] == '_' && s[i + 1] == '_'
  }

  /** The position of the first double underscore at or after `i`. */
  function FirstSep(s: string, i: nat): (k: Option<nat>)
    requires i <= |s|
    ensures k.Some? ==> i <= k.value && SepAt(s, k.value) && forall j :: i <= j < k.value ==> !SepAt(s, j)
    ensures k.None? ==> forall j :: i <= j ==> !SepAt(s, j)
    decreases |s| - i
  {
    if i == |s| then None else if SepAt(s, i) then Some(i) else FirstSep(s, i + 1)
  }

  datatype Entry = Entry(id: string, key: string)

  /** The keyring entry of one environment variable, if it is one. */
  function EntryOf(name: string, value: string): Option<Entry> {
    if !(ENV_KEY_PREFIX <= name) || value == "" then None else EntryOfSuffix(Fold(name[|ENV_KEY_PREFIX|..]), value)
  }

  function EntryOfSuffix(suffix: string, value: string): Option<Entry> {
    if suffix == "" then None
    else
      var sep := FirstSep(suffix, 0);
      if sep.None? then Some(Entry(suffix, value))
      else
        var authority, kid := Strip(suffix[..sep.value]), Strip(suffix[sep.value + 2..]);
        if authority == "" || kid == "" then None else Some(Entry(KeyedId(authority, kid), value))
  }

  function KeyedId(authority: string, kid: string): string {
    authority + ("/" + kid)
  }

  /** The set variables, each with its value, in the order they are listed. */
  type Env = seq<(string, string)>

  type Keyring = map<string, string>

  function Keys(env: Env): Keyring {
    if env == [] then map[]
    else
      var (name, value) := env[|env| - 1];
      var entry := EntryOf(name, value);
      if entry.Some? then Keys(env[..|env| - 1])[entry.value.id := entry.value.key] else Keys(env[..|env| - 1])
  }

  method LoadKeyring(env: Env) returns (keyring: Keyring)
    ensures keyring == Keys(env)
  {
    hide ENV_KEY_PREFIX, Fold, FirstSep, Strip, KeyedId;
    keyring := map[];
    for i := 0 to |env|
      invariant keyring == Keys(env[..i])
    {
      assert env[..i + 1][..i] == env[..i];
      var (name, value) := env[i];
      if ENV_KEY_PREFIX <= name && value != "" {
        var suffix := Fold(name[|ENV_KEY_PREFIX|..]);
        if suffix != "" {
          var sep := FirstSep(suffix, 0);
          if sep.Some? {
            var authority, kid := Strip(suffix[..sep.value]), Strip(suffix[sep.value + 2..]);
            if authority != "" && kid != "" {
              keyring := keyring[KeyedId(authority, kid) := value];
            }
          } else {
            keyring := keyring[suffix := value];
          }
        }
      }
    }
    assert env[..|env|] == env;
  }

  function FoldAll(toks: seq<string>): set<string> {
    if toks == [] then {}
    else (if Strip(toks[0]) == "" then {} else {Fold(toks[0])}) + FoldAll(toks[1..])
  }

  /** The retired key ids named by a comma-separated list. */
  function RetiredKids(raw: string): set<string> {
    FoldAll(Split(raw))
  }

  // ---- What the loaders read back ---------------------------------------------------------------------------------------------

  predicate Bare(s: string) {
    s != "" && Stripped(s)
  }

  lemma FoldOfBare(s: string)
    requires Bare(s)
    ensures Fold(s) == Lower(s) && Bare(Lower(s))
  {
    StripOfStripped(s);
    assert Lower(s)[0] == LowerChar(s[0]) && Lower(s)[|s| - 1] == LowerChar(s[|s| - 1]);
  }

  lemma LowerConcat(a: string, b: string)
    ensures Lower(a + b) == Lower(a) + Lower(b)
  {
  }

  function KeyedSuffix(authority: string, kid: string): string {
    authority + ("__" + kid)
  }

  /** A separator in the authority, or made by its last character and the separator itself, comes first. */
  lemma FirstSepOfKeyed(authority: string, kid: string)
    ensures var k := FirstSep(KeyedSuffix(authority, kid), 0);
            k.Some? && k.value <= |authority| && (k.value == |authority| <==> FirstSep(authority + "_", 0).None?)
  {
    var s := KeyedSuffix(authority, kid);
    assert s[|authority|] == '_' && s[|authority| + 1] == '_';
    assert SepAt(s, |authority|);
    assert forall j :: 0 <= j < |authority| ==> (SepAt(s, j) <==> SepAt(authority + "_", j));
    assert !SepAt(authority + "_", |authority|);
  }

  lemma EntryOfVariable(raw: string, value: string)
    requires value != ""
    ensures EntryOf(ENV_KEY_PREFIX + raw, value) == EntryOfSuffix(Fold(raw), value)
  {
    hide ENV_KEY_PREFIX, Fold, EntryOfSuffix;
    assert (ENV_KEY_PREFIX + raw)[|ENV_KEY_PREFIX|..] == raw;
  }

  lemma KeyedSuffixReadsBackIff(a: string, k: string, value: string)
    requires Bare(a) && Bare(k)
    ensures EntryOfSuffix(KeyedSuffix(a, k), value) == Some(Entry(KeyedId(a, k), value)) <==> FirstSep(a + "_", 0).None?
  {
    FirstSepOfKeyed(a, k);
    StripOfStripped(a);
    StripOfStripped(k);
    var suffix := KeyedSuffix(a, k);
    var sep := FirstSep(suffix, 0).value;
    hide Strip, FirstSep;
    if sep == |a| {
      assert suffix[..sep] == a && suffix[sep + 2..] == k;
    } else {
      WrongSplit(a, k, sep);
    }
  }

  /** A variable without the prefix or without a value is ignored. */
  lemma OthersAreIgnored(name: string, value: string)
    ensures !("AIFACTORY_TRUSTED_PLAN_KEY_" <= name) || value == "" ==> EntryOf(name, value) == None
  {
  }

  /** A name without a double underscore is an authority, stripped and folded. */
  lemma AuthorityIs(rest: string, value: string)
    requires value != "" && forall i :: 0 <= i < |Lower(Strip(rest))| - 1 ==> Lower(Strip(rest))[i] != '_' || Lower(Strip(rest))[i + 1] != '_'
    ensures EntryOf("AIFACTORY_TRUSTED_PLAN_KEY_" + rest, value) ==
      if Strip(rest) == "" then None else Some(Entry(Lower(Strip(rest)), value))
  {
    var s := Lower(Strip(rest));
    EntryOfVariable(rest, value);
    assert forall j :: 0 <= j ==> !SepAt(s, j);
    hide EntryOf, FirstSep, Strip;
  }

  /** The first double underscore ends the authority; the rest is the key id; both are stripped, and neither may be blank. */
  lemma KeyedIs(rest: string, value: string, authority: string, kid: string)
    requires value != "" && Lower(Strip(rest)) == authority + "__" + kid
    requires forall i :: 0 <= i < |authority| && authority[i] == '_' ==> i + 1 < |authority| && authority[i + 1] != '_'
    ensures EntryOf("AIFACTORY_TRUSTED_PLAN_KEY_" + rest, value) ==
      if Strip(authority) == "" || Strip(kid) == "" then None else Some(Entry(Strip(authority) + "/" + Strip(kid), value))
  {
    EntryOfVariable(rest, value);
    SuffixIs(authority, kid, value);
    hide EntryOf, EntryOfSuffix, Lower, Strip;
  }

  lemma SuffixIs(authority: string, kid: string, value: string)
    requires forall i :: 0 <= i < |authority| && authority[i] == '_' ==> i + 1 < |authority| && authority[i + 1] != '_'
    ensures EntryOfSuffix(authority + "__" + kid, value) ==
      if Strip(authority) == "" || Strip(kid) == "" then None else Some(Entry(Strip(authority) + "/" + Strip(kid), value))
  {
    var s := authority + "__" + kid;
    hide Strip;
    forall i | 0 <= i < |authority| ensures !SepAt(s, i) {
      assert s[i] == authority[i] && (i + 1 < |authority| ==> s[i + 1] == authority[i + 1]);
    }
    assert SepAt(s, |authority|);
    var sep := FirstSep(s, 0).value;
    hide FirstSep;
    assert sep == |authority|;
    assert s[..sep] == authority && s[sep + 2..] == kid;
    IdIsJoined(Strip(authority), Strip(kid));
  }

  lemma IdIsJoined(authority: string, kid: string)
    ensures KeyedId(authority, kid) == authority + "/" + kid
  {
    assert authority + "/" + kid == authority + ("/" + kid);
  }

  /** Round trip: a keyed variable, in any letter case, registers its key under authority/kid if and only if the authority
      neither holds a double underscore nor ends in an underscore. */
  lemma KeyedVariableReadsBackIff(authority: string, kid: string, value: string)
    requires Bare(authority) && Bare(kid) && value != ""
    ensures EntryOf(ENV_KEY_PREFIX + KeyedSuffix(authority, kid), value)
         == Some(Entry(KeyedId(Lower(authority), Lower(kid)), value))
       <==> FirstSep(authority + "_", 0).None?
  {
    EntryOfVariable(KeyedSuffix(authority, kid), value);
    FoldKeyedSuffix(authority, kid);
    SameSeps(authority);
    FoldOfBare(authority);
    FoldOfBare(kid);
    KeyedSuffixReadsBackIff(Lower(authority), Lower(kid), value);
    hide ENV_KEY_PREFIX, EntryOf, EntryOfSuffix, Fold, Strip, FirstSep, Lower;
  }

  lemma FoldKeyedSuffix(authority: string, kid: string)
    requires Bare(authority) && Bare(kid)
    ensures Fold(KeyedSuffix(authority, kid)) == KeyedSuffix(Lower(authority), Lower(kid))
  {
    assert Bare(KeyedSuffix(authority, kid));
    FoldOfBare(KeyedSuffix(authority, kid));
    LowerConcat(authority, "__" + kid);
    LowerConcat("__", kid);
    assert Lower("__") == "__";
  }

  lemma LowerKeepsSeps(s: string)
    ensures FirstSep(Lower(s), 0).None? <==> FirstSep(s, 0).None?
  {
    forall j ensures SepAt(Lower(s), j) <==> SepAt(s, j) {
    }
  }

  lemma SameSeps(authority: string)
    ensures FirstSep(authority + "_", 0).None? <==> FirstSep(Lower(authority) + "_", 0).None?
  {
    LowerKeepsSeps(authority + "_");
    assert Lower(authority + "_") == Lower(authority) + "_";
  }

  /** A split at an earlier separator never spells the same id. */
  lemma WrongSplit(a: string, k: string, sep: nat)
    requires sep < |a| && SepAt(KeyedSuffix(a, k), sep)
    ensures var suffix := KeyedSuffix(a, k); KeyedId(Strip(suffix[..sep]), Strip(suffix[sep + 2..])) != KeyedId(a, k)
  {
    var suffix := KeyedSuffix(a, k);
    var x, y := suffix[..sep], suffix[sep + 2..];
    StripIsShorter(x);
    StripIsShorter(y);
    assert KeyedId(x, y)[sep] == '/' && KeyedId(a, k)[sep] == a[sep] == suffix[sep];
    assert |KeyedId(x, y)| == |KeyedId(a, k)|;
  }

  /** A variable without a key id registers its key under the authority. */
  lemma LegacyVariableReadsBack(authority: string, value: string)
    requires Bare(authority) && value != "" && FirstSep(authority, 0).None?
    ensures EntryOf(ENV_KEY_PREFIX + authority, value) == Some(Entry(Lower(authority), value))
  {
    EntryOfVariable(authority, value);
    hide ENV_KEY_PREFIX, EntryOf, Strip;
    FoldOfBare(authority);
    LowerKeepsSeps(authority);
    hide FirstSep, Lower;
  }

  lemma {:induction false} FoldAllConcat(a: seq<string>, b: seq<string>)
    ensures FoldAll(a + b) == FoldAll(a) + FoldAll(b)
  {
    if a == [] {
      assert a + b == b;
    } else {
      assert (a + b)[1..] == a[1..] + b;
      FoldAllConcat(a[1..], b);
    }
  }

  lemma {:induction false} RetiredIff(toks: seq<string>)
    ensures forall t :: t in FoldAll(toks) <==> exists k :: 0 <= k < |toks| && Strip(toks[k]) != "" && t == Lower(Strip(toks[k]))
  {
    hide Strip, Lower;
    if toks != [] {
      RetiredIff(toks[1..]);
      assert forall k :: 1 <= k < |toks| ==> toks[k] == toks[1..][k - 1];
      forall t | t in FoldAll(toks[1..]) ensures exists k :: 0 <= k < |toks| && Strip(toks[k]) != "" && t == Lower(Strip(toks[k])) {
        var k :| 0 <= k < |toks[1..]| && Strip(toks[1..][k]) != "" && t == Lower(Strip(toks[1..][k]));
        assert toks[k + 1] == toks[1..][k];
      }
    }
  }

  /** The retired tokens are those between commas, folded, that are not blank. */
  lemma RetiredAre(toks: seq<string>, raw: string)
    requires toks != [] && (forall k :: 0 <= k < |toks| ==> ',' !in toks[k]) && raw == CommaJoined(toks)
    ensures forall t :: t in RetiredKids(raw) <==> exists k :: 0 <= k < |toks| && Strip(toks[k]) != "" && t == Lower(Strip(toks[k]))
  {
    SplitOfCommas(toks);
    RetiredIff(toks);
    hide Strip, Lower, FoldAll;
  }

  function CommaJoined(toks: seq<string>): string
    requires toks != []
  {
    if |toks| == 1 then toks[0] else CommaJoined(toks[..|toks| - 1]) + "," + toks[|toks| - 1]
  }

  lemma {:induction false} SplitOfCommas(toks: seq<string>)
    requires toks != [] && forall k :: 0 <= k < |toks| ==> ',' !in toks[k]
    ensures Split(CommaJoined(toks)) == toks
  {
    if |toks| == 1 {
      SplitPlain(toks[0]);
    } else {
      var front, last := toks[..|toks| - 1], toks[|toks| - 1];
      SplitOfCommas(front);
      SplitAtComma(CommaJoined(front), last);
      SplitPlain(last);
      hide Split, CommaJoined;
      assert toks == front + [last];
    }
  }

  /** Appending a token to the retired list retires that token and nothing else. */
  lemma RetireReadsBack(raw: string, tok: string)
    requires ',' !in tok && Strip(tok) != ""
    ensures RetiredKids(raw + "," + tok) == RetiredKids(raw) + {Fold(tok)}
  {
    SplitAtComma(raw, tok);
    SplitPlain(tok);
    FoldAllConcat(Split(raw), [tok]);
    assert [tok][1..] == [];
  }

  // ---- Signing and verification -------------------------------------------------------------------------------------------------

  /** An approval envelope; a missing field and an empty one are treated alike, so both are "" here. */
  datatype Envelope = Envelope(approvedBy: string, timestamp: string, contract: string, signature: string, kid: string)

  /** A plan is its canonical text without the envelope, and the envelope. */
  datatype Plan = Plan(core: string, approval: Option<Envelope>)

  datatype Verdict =
    | Accepted
    | NoEnvelope
    | MissingFields(fields: seq<string>)
    | UnsupportedContract
    | Retired
    | NoKey
    | Mismatch

  const SUPPORTED_CONTRACT_VERSIONS: set<string> := {"1", "2"}

  function SigningBytes(core: string, approver: string, timestamp: string, contract: string, kid: string): string {
    core + ("|" + Metadata(approver, timestamp, contract, kid))
  }

  /** The approval metadata, joined; no key id appends nothing. */
  function Metadata(approver: string, timestamp: string, contract: string, kid: string): string {
    approver + ("|" + (timestamp + ("|" + Tail(contract, kid))))
  }

  function Tail(contract: string, kid: string): string {
    if kid == "" then contract else contract + ("|" + kid)
  }

  function Sign(mac: Mac, core: string, key: string, approver: string, timestamp: string, contract: string, kid: string): Envelope {
    Envelope(approver, timestamp, contract, mac(key, SigningBytes(core, approver, timestamp, contract, kid)), kid)
  }

  function SelectKey(keyring: Keyring, retired: set<string>, authority: string, kid: string): (r: (Option<string>, Verdict)) {
    if kid != "" then
      var kidL := Fold(kid);
      if kidL in retired || KeyedId(authority, kidL) in retired then (None, Retired)
      else if KeyedId(authority, kidL) in keyring && keyring[KeyedId(authority, kidL)] != "" then
        (Some(keyring[KeyedId(authority, kidL)]), Accepted)
      else (None, NoKey)
    else if authority in keyring && keyring[authority] != "" then (Some(keyring[authority]), Accepted)
    else (None, NoKey)
  }

  function Missing(e: Envelope): seq<string> {
    (if e.approvedBy == "" then ["approved_by"] else [])
    + (if e.timestamp == "" then ["approval_timestamp"] else [])
    + (if e.contract == "" then ["plan_contract_version"] else [])
    + (if e.signature == "" then ["signature"] else [])
  }

  function Verify(mac: Mac, plan: Plan, keyring: Keyring, retired: set<string>): Verdict {
    if plan.approval.None? then NoEnvelope
    else
      var e := plan.approval.value;
      if Missing(e) != [] then MissingFields(Missing(e))
      else if e.contract !in SUPPORTED_CONTRACT_VERSIONS then UnsupportedContract
      else
        var (key, reason) := SelectKey(keyring, retired, Fold(e.approvedBy), e.kid);
        if key.None? then reason
        else if mac(key.value, SigningBytes(plan.core, e.approvedBy, e.timestamp, e.contract, e.kid)) != e.signature then Mismatch
        else Accepted
  }

  /** Where the verification key of an approver and key id is looked up. */
  function IdOf(approver: string, kid: string): string {
    if kid == "" then Fold(approver) else KeyedId(Fold(approver), Fold(kid))
  }

  predicate IsRetired(approver: string, kid: string, retired: set<string>) {
    kid != "" && (Fold(kid) in retired || KeyedId(Fold(approver), Fold(kid)) in retired)
  }

  /** A plan verifies if and only if its envelope is whole and current, its key id is not retired, and its signature is the
      one made with the key the keyring holds for it. */
  lemma VerifyIff(mac: Mac, plan: Plan, keyring: Keyring, retired: set<string>)
    ensures Verify(mac, plan, keyring, retired) == Accepted
       <==> && plan.approval.Some?
            && var e := plan.approval.value;
               && e.approvedBy != "" && e.timestamp != "" && e.contract in SUPPORTED_CONTRACT_VERSIONS && e.signature != ""
               && !IsRetired(e.approvedBy, e.kid, retired)
               && IdOf(e.approvedBy, e.kid) in keyring
               && var key := keyring[IdOf(e.approvedBy, e.kid)];
                  key != "" && e == Sign(mac, plan.core, key, e.approvedBy, e.timestamp, e.contract, e.kid)
  {
    hide SigningBytes, Fold, KeyedId, SUPPORTED_CONTRACT_VERSIONS;
    if plan.approval.Some? {
      var e := plan.approval.value;
      MissingIff(e);
      hide Missing;
      if e.contract in SUPPORTED_CONTRACT_VERSIONS {
        VersionsAreNotEmpty();
      }
      SelectedIff(keyring, retired, e.approvedBy, e.kid);
      hide SelectKey, IdOf, IsRetired;
    }
  }

  lemma VersionsAreNotEmpty()
    ensures "" !in SUPPORTED_CONTRACT_VERSIONS
  {
  }

  lemma MissingIff(e: Envelope)
    ensures Missing(e) == [] <==> e.approvedBy != "" && e.timestamp != "" && e.contract != "" && e.signature != ""
  {
  }

  /** A key is selected if and only if the key id is not retired and the keyring holds one that is not empty. */
  lemma SelectedIff(keyring: Keyring, retired: set<string>, approver: string, kid: string)
    ensures var (key, reason), id := SelectKey(keyring, retired, Fold(approver), kid), IdOf(approver, kid);
      if !IsRetired(approver, kid, retired) && id in keyring && keyring[id] != "" then key == Some(keyring[id])
      else key == None && reason != Accepted
  {
  }

  /** The key id under which a key is looked up, and the signed text, spelled out. */
  lemma SpelledOut(core: string, approver: string, timestamp: string, contract: string, kid: string)
    ensures IdOf(approver, kid) == if kid == "" then Lower(Strip(approver)) else Lower(Strip(approver)) + "/" + Lower(Strip(kid))
    ensures forall retired: set<string> :: IsRetired(approver, kid, retired) <==>
      kid != "" && (Lower(Strip(kid)) in retired || Lower(Strip(approver)) + "/" + Lower(Strip(kid)) in retired)
    ensures SigningBytes(core, approver, timestamp, contract, kid) ==
      core + "|" + approver + "|" + timestamp + "|" + contract + if kid == "" then "" else "|" + kid
  {
    hide Lower, Strip;
    var who, k := Fold(approver), Fold(kid);
    assert who + ("/" + k) == who + "/" + k;
    assert SigningBytes(core, approver, timestamp, contract, kid) ==
      core + "|" + approver + "|" + timestamp + "|" + contract + if kid == "" then "" else "|" + kid;
  }

  /** Every outcome: fields are missing; the contract is not current; the key id, alone or under its authority, is retired; no key
      is held for authority and key id; the digest of the plan and its metadata differs from the signature; or the plan is
      accepted. Each test comes before the next. */
  lemma VerdictIs(mac: Mac, plan: Plan, keyring: Keyring, retired: set<string>)
    ensures Verify(mac, plan, keyring, retired) == NoEnvelope <==> plan.approval == None
    ensures plan.approval.Some? ==>
      var v, e := Verify(mac, plan, keyring, retired), plan.approval.value;
      var who, kid := Lower(Strip(e.approvedBy)), Lower(Strip(e.kid));
      var whole := e.approvedBy != "" && e.timestamp != "" && e.contract != "" && e.signature != "";
      var current := whole && (e.contract == "1" || e.contract == "2");
      var gone := e.kid != "" && (kid in retired || who + "/" + kid in retired);
      var id := if e.kid == "" then who else who + "/" + kid;
      var held := id in keyring && keyring[id] != "";
      var signed := plan.core + "|" + e.approvedBy + "|" + e.timestamp + "|" + e.contract + if e.kid == "" then "" else "|" + e.kid;
      && (v.MissingFields? <==> !whole)
      && (v == UnsupportedContract <==> whole && !current)
      && (v == Retired <==> current && gone)
      && (v == NoKey <==> current && !gone && !held)
      && (v == Mismatch <==> current && !gone && held && mac(keyring[id], signed) != e.signature)
      && (v == Accepted <==> current && !gone && held && mac(keyring[id], signed) == e.signature)
  {
    if plan.approval.Some? {
      var e := plan.approval.value;
      SpelledOut(plan.core, e.approvedBy, e.timestamp, e.contract, e.kid);
      MissingIff(e);
      ReasonIs(keyring, retired, e.approvedBy, e.kid);
      SelectedIff(keyring, retired, e.approvedBy, e.kid);
      CurrentIff(e.contract);
      hide SigningBytes, Fold, KeyedId, SUPPORTED_CONTRACT_VERSIONS, Missing, SelectKey, IdOf, IsRetired, Lower, Strip;
    }
  }

  lemma CurrentIff(contract: string)
    ensures contract in SUPPORTED_CONTRACT_VERSIONS <==> contract == "1" || contract == "2"
  {
  }

  lemma ReasonIs(keyring: Keyring, retired: set<string>, approver: string, kid: string)
    ensures var (key, reason) := SelectKey(keyring, retired, Fold(approver), kid);
      key == None ==> reason == if IsRetired(approver, kid, retired) then Retired else NoKey
  {
    hide Fold;
  }

  /** The missing fields are named. */
  lemma MissingAre(mac: Mac, plan: Plan, keyring: Keyring, retired: set<string>)
    requires Verify(mac, plan, keyring, retired).MissingFields?
    ensures var fields, e := Verify(mac, plan, keyring, retired).fields, plan.approval.value;
      && ("approved_by" in fields <==> e.approvedBy == "") && ("approval_timestamp" in fields <==> e.timestamp == "")
      && ("plan_contract_version" in fields <==> e.contract == "") && ("signature" in fields <==> e.signature == "")
  {
    var e := plan.approval.value;
    assert forall f :: f in Missing(e) <==>
      || (f == "approved_by" && e.approvedBy == "") || (f == "approval_timestamp" && e.timestamp == "")
      || (f == "plan_contract_version" && e.contract == "") || (f == "signature" && e.signature == "");
  }

  // ---- What a signature covers -------------------------------------------------------------------------------------------------

  /** Metadata that passes the field and version checks. */
  predicate Supported(approver: string, timestamp: string, contract: string) {
    approver != "" && timestamp != "" && contract in SUPPORTED_CONTRACT_VERSIONS
  }

  predicate IsVersion(c: char) {
    c == '1' || c == '2'
  }

  /** The contract version stands at position `p` of the text: a bar before it, and nothing or a bar and more after it. */
  predicate VersionAt(s: string, p: int) {
    && 0 <= p < |s| && IsVersion(s[p])
    && (p == 0 || s[p - 1] == '|')
    && (p + 1 == |s| || (s[p + 1] == '|' && p + 2 < |s|))
  }

  /** The joined metadata can be read with the approver ending before the bar at `i` and the time before the bar at `j`. */
  predicate ReadsAt(m: string, i: int, j: int) {
    0 < i && i + 1 < j < |m| && m[i] == '|' && m[j] == '|' && VersionAt(m, j + 1)
  }

  /** There is one way to read the fields: no bar inside the approver (one at its beginning does no harm) or the time (one at
      its end does none), and no part of the key id that could be a version. */
  ghost predicate OneReading(approver: string, timestamp: string, kid: string) {
    && (forall q :: 0 < q < |approver| ==> approver[q] != '|')
    && (forall q :: 0 <= q < |timestamp| - 1 ==> timestamp[q] != '|')
    && (forall q :: 0 <= q < |kid| ==> !VersionAt(kid, q))
  }

  lemma Around(x: string, y: string)
    ensures var s := x + ("|" + y); |s| == |x| + 1 + |y| && s[..|x|] == x && s[|x|] == '|' && s[|x| + 1..] == y
  {
  }

  lemma CutAt(m: string, i: nat)
    requires i < |m| && m[i] == '|'
    ensures m == m[..i] + ("|" + m[i + 1..])
  {
  }

  lemma SameCut(x: string, y: string, x': string, y': string)
    requires |x| == |x'| && x + ("|" + y) == x' + ("|" + y')
    ensures x == x' && y == y'
  {
    Around(x, y);
    Around(x', y');
  }

  lemma LayoutAt(a: string, t: string, c: string, k: string)
    requires |c| == 1
    ensures var m, p := Metadata(a, t, c, k), |a| + |t| + 2;
      && |m| == p + 1 + (if k == "" then 0 else 1 + |k|)
      && (forall q :: 0 <= q < |a| ==> m[q] == a[q]) && m[|a|] == '|'
      && (forall q :: |a| < q < p - 1 ==> m[q] == t[q - |a| - 1]) && m[p - 1] == '|' && m[p] == c[0]
      && (k != "" ==> m[p + 1] == '|' && forall q :: p + 2 <= q < |m| ==> m[q] == k[q - p - 2])
  {
    var m, p, rest := Metadata(a, t, c, k), |a| + |t| + 2, t + ("|" + Tail(c, k));
    Around(a, rest);
    Around(t, Tail(c, k));
    Around(c, k);
    assert m == a + ("|" + rest);
    assert forall q :: 0 <= q < |a| ==> m[q] == m[..|a|][q];
    assert forall q :: |a| < q < |m| ==> m[q] == m[|a| + 1..][q - |a| - 1];
    assert forall q :: 0 <= q < |t| ==> rest[q] == rest[..|t|][q];
    assert forall q :: |t| < q < |rest| ==> rest[q] == rest[|t| + 1..][q - |t| - 1];
    TailAt(c, k);
    hide Metadata, Tail;
  }

  lemma TailAt(c: string, k: string)
    requires |c| == 1
    ensures var r := Tail(c, k);
      && |r| == 1 + (if k == "" then 0 else 1 + |k|) && r[0] == c[0]
      && (k != "" ==> r[1] == '|' && forall q :: 2 <= q < |r| ==> r[q] == k[q - 2])
  {
    if k != "" {
      assert Tail(c, k) == c + ("|" + k);
    }
  }

  lemma VersionIsOneChar(c: string)
    requires c in SUPPORTED_CONTRACT_VERSIONS
    ensures |c| == 1 && IsVersion(c[0])
  {
  }

  /** Supported metadata is read where its fields end. */
  lemma ReadsItsOwn(a: string, t: string, c: string, k: string)
    requires Supported(a, t, c)
    ensures ReadsAt(Metadata(a, t, c, k), |a|, |a| + 1 + |t|)
  {
    VersionIsOneChar(c);
    LayoutAt(a, t, c, k);
    hide Metadata;
  }

  /** Every way to read the text is supported metadata that joins to it. */
  lemma ReadingIsMetadata(m: string, i: int, j: int) returns (a: string, t: string, c: string, k: string)
    requires ReadsAt(m, i, j)
    ensures Supported(a, t, c) && Metadata(a, t, c, k) == m && |a| == i && |a| + 1 + |t| == j
  {
    a, t, c := m[..i], m[i + 1..j], [m[j + 1]];
    k := if j + 2 == |m| then "" else m[j + 3..];
    assert c == if m[j + 1] == '1' then "1" else "2";
    CutTwice(m, i, j);
    TailReads(m[j + 1..], c, k);
    hide Tail;
  }

  lemma CutTwice(m: string, i: nat, j: nat)
    requires i < j < |m| && m[i] == '|' && m[j] == '|'
    ensures m == m[..i] + ("|" + (m[i + 1..j] + ("|" + m[j + 1..])))
  {
    var rest := m[i + 1..];
    CutAt(m, i);
    assert rest[..j - i - 1] == m[i + 1..j] && rest[j - i..] == m[j + 1..];
    CutAt(rest, j - i - 1);
  }

  lemma TailReads(r: string, c: string, k: string)
    requires r != "" && c == [r[0]] && (|r| == 1 || (|r| > 2 && r[1] == '|')) && k == (if |r| == 1 then "" else r[2..])
    ensures Tail(c, k) == r
  {
    if |r| > 2 {
      CutAt(r, 1);
      assert r[..1] == c;
    }
  }

  /** The fields end where they do, so metadata read at the same places is the same metadata. */
  lemma SamePlacesSameFields(a: string, t: string, c: string, k: string, a': string, t': string, c': string, k': string)
    requires Supported(a, t, c) && Supported(a', t', c') && Metadata(a, t, c, k) == Metadata(a', t', c', k')
    requires |a| == |a'| && |t| == |t'|
    ensures a == a' && t == t' && c == c' && k == k'
  {
    VersionIsOneChar(c);
    VersionIsOneChar(c');
    SameCut(a, t + ("|" + Tail(c, k)), a', t' + ("|" + Tail(c', k')));
    SameCut(t, Tail(c, k), t', Tail(c', k'));
    SameTail(c, k, c', k');
    hide Tail;
  }

  lemma SameTail(c: string, k: string, c': string, k': string)
    requires |c| == 1 && |c'| == 1 && Tail(c, k) == Tail(c', k')
    ensures c == c' && k == k'
  {
    TailAt(c, k);
    TailAt(c', k');
    if k != "" {
      SameCut(c, k, c', k');
    } else {
      assert c == Tail(c, k) == c';
    }
  }

  /** With one reading, no other place in the text can be taken for the end of a field. */
  lemma OnlyItsOwn(a: string, t: string, c: string, k: string, i: int, j: int)
    requires Supported(a, t, c) && OneReading(a, t, k) && ReadsAt(Metadata(a, t, c, k), i, j)
    ensures i == |a| && j == |a| + 1 + |t|
  {
    VersionIsOneChar(c);
    LayoutAt(a, t, c, k);
    var m, p := Metadata(a, t, c, k), |a| + |t| + 2;
    hide Metadata;
    assert i >= |a|;
    assert |a| < i < p - 1 ==> i == p - 2;
    assert j >= p - 1;
    if j > p - 1 {
      VersionInKid(a, t, c, k, i, j);
    }
  }

  /** A reading with a later version finds that version in the key id. */
  lemma VersionInKid(a: string, t: string, c: string, k: string, i: int, j: int)
    requires |c| == 1 && IsVersion(c[0]) && ReadsAt(Metadata(a, t, c, k), i, j) && j > |a| + 1 + |t|
    ensures VersionAt(k, j - |a| - |t| - 3)
  {
    LayoutAt(a, t, c, k);
    var m, p := Metadata(a, t, c, k), |a| + |t| + 2;
    hide Metadata;
    assert j >= p + 1 && k != "";
    var q := j - p - 1;
    assert m[j + 1] == k[q] && (q > 0 ==> m[j] == k[q - 1]) && (q + 1 < |k| ==> m[j + 2] == k[q + 1]);
  }

  lemma BarInApprover(a: string, t: string, c: string, k: string, q: int)
    requires Supported(a, t, c) && 0 < q < |a| && a[q] == '|'
    ensures ReadsAt(Metadata(a, t, c, k), q, |a| + 1 + |t|)
  {
    VersionIsOneChar(c);
    LayoutAt(a, t, c, k);
    ReadsItsOwn(a, t, c, k);
    hide Metadata;
  }

  lemma BarInTime(a: string, t: string, c: string, k: string, q: int)
    requires Supported(a, t, c) && 0 <= q < |t| - 1 && t[q] == '|'
    ensures ReadsAt(Metadata(a, t, c, k), |a| + 1 + q, |a| + 1 + |t|)
  {
    VersionIsOneChar(c);
    LayoutAt(a, t, c, k);
    ReadsItsOwn(a, t, c, k);
    var m := Metadata(a, t, c, k);
    hide Metadata;
    assert m[|a| + 1 + q] == t[q];
  }

  lemma VersionReads(a: string, t: string, c: string, k: string, q: int)
    requires Supported(a, t, c) && VersionAt(k, q)
    ensures ReadsAt(Metadata(a, t, c, k), |a|, |a| + |t| + 3 + q)
  {
    VersionIsOneChar(c);
    LayoutAt(a, t, c, k);
    var m, j := Metadata(a, t, c, k), |a| + |t| + 3 + q;
    hide Metadata;
    assert m[j + 1] == k[q] && (q > 0 ==> m[j] == k[q - 1]) && (q + 1 < |k| ==> m[j + 2] == k[q + 1]);
  }

  /** A bar or a version in the wrong place gives a second reading. */
  lemma AnotherReading(a: string, t: string, c: string, k: string) returns (i: int, j: int)
    requires Supported(a, t, c) && !OneReading(a, t, k)
    ensures ReadsAt(Metadata(a, t, c, k), i, j) && (i != |a| || j != |a| + 1 + |t|)
  {
    hide Metadata, ReadsAt, Supported, VersionAt;
    if q :| 0 < q < |a| && a[q] == '|' {
      i, j := q, |a| + 1 + |t|;
      BarInApprover(a, t, c, k, q);
    } else if q :| 0 <= q < |t| - 1 && t[q] == '|' {
      i, j := |a| + 1 + q, |a| + 1 + |t|;
      BarInTime(a, t, c, k, q);
    } else {
      var q :| 0 <= q < |k| && VersionAt(k, q);
      i, j := |a|, |a| + |t| + 3 + q;
      VersionReads(a, t, c, k, q);
    }
  }

  /** No other supported metadata joins to the same text. */
  ghost predicate Determined(a: string, t: string, c: string, k: string) {
    forall a', t', c', k' :: Supported(a', t', c') && Metadata(a', t', c', k') == Metadata(a, t, c, k) ==>
      a' == a && t' == t && c' == c && k' == k
  }

  /** The joined text of supported metadata determines its fields if and only if they can be read in one way. */
  lemma DeterminedIff(a: string, t: string, c: string, k: string)
    requires Supported(a, t, c)
    ensures Determined(a, t, c, k) <==> OneReading(a, t, k)
  {
    hide Metadata, Supported, OneReading, ReadsAt;
    if OneReading(a, t, k) {
      forall a', t', c', k' | Supported(a', t', c') && Metadata(a', t', c', k') == Metadata(a, t, c, k)
        ensures a' == a && t' == t && c' == c && k' == k
      {
        ReadsItsOwn(a', t', c', k');
        OnlyItsOwn(a, t, c, k, |a'|, |a'| + 1 + |t'|);
        SamePlacesSameFields(a', t', c', k', a, t, c, k);
      }
    } else {
      var i, j := AnotherReading(a, t, c, k);
      var a', t', c', k' := ReadingIsMetadata(Metadata(a, t, c, k), i, j);
    }
  }

  /** Neither text is a proper beginning of the other. */
  predicate Apart(a: string, b: string) {
    a == b || (!(a <= b) && !(b <= a))
  }

  lemma PlansAreApart(core: string, core': string)
    requires JsonText.ObjectText(core) && JsonText.ObjectText(core')
    ensures Apart(core, core')
  {
    hide JsonText.ObjectText;
    if core <= core' {
      JsonText.ObjectTextsAreApart(core, core');
    }
    if core' <= core {
      JsonText.ObjectTextsAreApart(core', core);
    }
  }

  lemma ShorterIsPrefix(a: string, x: string, b: string, y: string)
    requires a + x == b + y && |a| <= |b|
    ensures a <= b
  {
    assert a == (a + x)[..|a|] == (b + y)[..|a|] == b[..|a|];
  }

  /** Two payloads are the same bytes if and only if the plans and the joined metadata are the same. */
  lemma SameBytesIff(core: string, m: string, core': string, m': string)
    requires Apart(core, core')
    ensures core + ("|" + m) == core' + ("|" + m') <==> core == core' && m == m'
  {
    var s, t := core + ("|" + m), core' + ("|" + m');
    if s == t {
      if |core| <= |core'| {
        ShorterIsPrefix(core, "|" + m, core', "|" + m');
      } else {
        ShorterIsPrefix(core', "|" + m', core, "|" + m);
      }
      assert s[|core| + 1..] == m && t[|core'| + 1..] == m';
    }
  }

  /** No other plan text with supported metadata is signed as the same bytes. */
  ghost predicate SignedAlone(core: string, a: string, t: string, c: string, k: string) {
    forall core', a', t', c', k' ::
      JsonText.ObjectText(core') && Supported(a', t', c') && SigningBytes(core', a', t', c', k') == SigningBytes(core, a, t, c, k) ==>
        core' == core && a' == a && t' == t && c' == c && k' == k
  }

  /** The signed bytes of a plan with supported metadata stand for that plan and metadata only, key id included, if and only if
      the fields can be read in one way. */
  lemma SignedAloneIff(core: string, a: string, t: string, c: string, k: string)
    requires JsonText.ObjectText(core) && Supported(a, t, c)
    ensures SignedAlone(core, a, t, c, k) <==> OneReading(a, t, k)
  {
    DeterminedIff(a, t, c, k);
    hide JsonText.ObjectText, Supported, Metadata, OneReading;
    if OneReading(a, t, k) {
      forall core', a', t', c', k' |
        JsonText.ObjectText(core') && Supported(a', t', c') && SigningBytes(core', a', t', c', k') == SigningBytes(core, a, t, c, k)
        ensures core' == core && a' == a && t' == t && c' == c && k' == k
      {
        PlansAreApart(core', core);
        SameBytesIff(core', Metadata(a', t', c', k'), core, Metadata(a, t, c, k));
      }
    } else {
      var a', t', c', k' :| Supported(a', t', c') && Metadata(a', t', c', k') == Metadata(a, t, c, k)
        && !(a' == a && t' == t && c' == c && k' == k);
      assert SigningBytes(core, a', t', c', k') == SigningBytes(core, a, t, c, k);
    }
  }

  /** Two payloads that can be read in two ways: a bar in the key id, and a key id that is a version. */
  lemma TwoReadings(core: string, approver: string, timestamp: string)
    ensures SigningBytes(core, approver, timestamp, "2", "2|x") == SigningBytes(core, approver, timestamp + "|2", "2", "x")
    ensures SigningBytes(core, approver, timestamp, "2", "2") == SigningBytes(core, approver, timestamp + "|2", "2", "")
  {
    assert "2" + ("|" + "2|x") == "2" + ("|" + ("2" + ("|" + "x")));
    assert (timestamp + "|2") + ("|" + ("2" + ("|" + "x"))) == timestamp + ("|" + ("2" + ("|" + ("2" + ("|" + "x")))));
    assert (timestamp + "|2") + ("|" + "2") == timestamp + ("|" + ("2" + ("|" + "2")));
  }

  /** The text whose digest an envelope carries. */
  function SignedText(plan: Plan): string
    requires plan.approval.Some?
  {
    var e := plan.approval.value;
    SigningBytes(plan.core, e.approvedBy, e.timestamp, e.contract, e.kid)
  }

  /** Tamper evidence: let a plan verify with a signature that was made for another plan and envelope, whose metadata passes the
      checks and can be read in one way. Then it is that plan with that envelope, key id included, unless the digest of its own
      text under the verifying key equals that of the signed text under the signing key while key or text differ. */
  lemma AcceptedMeansSigned(mac: Mac, plan: Plan, keyring: Keyring, retired: set<string>, signed: Plan, key: string)
    requires Verify(mac, plan, keyring, retired) == Accepted && signed.approval.Some?
    requires var e := signed.approval.value;
      && e == Sign(mac, signed.core, key, e.approvedBy, e.timestamp, e.contract, e.kid)
      && e.signature == plan.approval.value.signature
      && Supported(e.approvedBy, e.timestamp, e.contract) && OneReading(e.approvedBy, e.timestamp, e.kid)
    requires JsonText.ObjectText(plan.core) && JsonText.ObjectText(signed.core)
    ensures var e := plan.approval.value;
      && IdOf(e.approvedBy, e.kid) in keyring
      && var verifying := keyring[IdOf(e.approvedBy, e.kid)];
         || plan == signed
         || ((verifying != key || SignedText(plan) != SignedText(signed))
             && mac(verifying, SignedText(plan)) == mac(key, SignedText(signed)))
  {
    var e, f := plan.approval.value, signed.approval.value;
    VerifyIff(mac, plan, keyring, retired);
    SignedAloneIff(signed.core, f.approvedBy, f.timestamp, f.contract, f.kid);
    hide SigningBytes, Verify, IdOf, JsonText.ObjectText, OneReading;
    if SignedText(plan) == SignedText(signed) {
      assert plan.core == signed.core && e == f;
    }
  }

  /** What is signed with the key that the keyring holds verifies. */
  lemma SignedPlanVerifies(mac: Mac, plan: Plan, key: string)
    requires plan.approval.Some? && key != ""
    requires var e := plan.approval.value;
      && Supported(e.approvedBy, e.timestamp, e.contract)
      && e == Sign(mac, plan.core, key, e.approvedBy, e.timestamp, e.contract, e.kid)
    ensures var e := plan.approval.value; Verify(mac, plan, map[IdOf(e.approvedBy, e.kid) := key], {}) == Accepted
  {
    VerifyIff(mac, plan, map[IdOf(plan.approval.value.approvedBy, plan.approval.value.kid) := key], {});
  }

  /** Whatever the digest, there are plans that tamper evidence is about: the empty object, approved by "ops". */
  lemma TamperEvidenceApplies(mac: Mac, key: string) returns (plan: Plan, keyring: Keyring)
    requires key != ""
    ensures Verify(mac, plan, keyring, {}) == Accepted && JsonText.ObjectText(plan.core) && plan.approval.Some?
    ensures var e := plan.approval.value;
      && e == Sign(mac, plan.core, key, e.approvedBy, e.timestamp, e.contract, e.kid)
      && Supported(e.approvedBy, e.timestamp, e.contract) && OneReading(e.approvedBy, e.timestamp, e.kid)
  {
    var core := JsonText.Render(JsonText.Object([]));
    JsonText.RenderedObject([]);
    plan := Plan(core, Some(Sign(mac, core, key, "ops", "now", "2", "new")));
    keyring := map[IdOf("ops", "new") := key];
    OpsReadsOnce();
    hide SigningBytes, IdOf, Verify, JsonText.ObjectText, JsonText.Render, OneReading, Supported;
    SignedPlanVerifies(mac, plan, key);
  }

  lemma OpsReadsOnce()
    ensures Supported("ops", "now", "2") && OneReading("ops", "now", "new")
  {
  }

  /** A signature made for one plan is no signature for the same plan under another key id: only a digest that is the same for
      two texts, or under two keys, could pass. */
  lemma KidCannotBeSwapped(mac: Mac, core: string, e: Envelope, kid: string, key: string, keyring: Keyring, retired: set<string>)
    requires Supported(e.approvedBy, e.timestamp, e.contract) && OneReading(e.approvedBy, e.timestamp, e.kid)
    requires e == Sign(mac, core, key, e.approvedBy, e.timestamp, e.contract, e.kid) && kid != e.kid && JsonText.ObjectText(core)
    ensures SigningBytes(core, e.approvedBy, e.timestamp, e.contract, kid) != SigningBytes(core, e.approvedBy, e.timestamp, e.contract, e.kid)
    ensures Verify(mac, Plan(core, Some(e.(kid := kid))), keyring, retired) == Accepted ==>
      && IdOf(e.approvedBy, kid) in keyring
      && mac(keyring[IdOf(e.approvedBy, kid)], SigningBytes(core, e.approvedBy, e.timestamp, e.contract, kid)) == e.signature
  {
    SignedAloneIff(core, e.approvedBy, e.timestamp, e.contract, e.kid);
    VerifyIff(mac, Plan(core, Some(e.(kid := kid))), keyring, retired);
    hide SigningBytes, Verify, IdOf, JsonText.ObjectText, OneReading;
  }

  /** Retiring never accepts what was rejected. */
  lemma RetiringOnlyRejects(mac: Mac, plan: Plan, keyring: Keyring, retired: set<string>, more: set<string>)
    requires retired <= more && Verify(mac, plan, keyring, more) == Accepted
    ensures Verify(mac, plan, keyring, retired) == Accepted
  {
    VerifyIff(mac, plan, keyring, more);
    VerifyIff(mac, plan, keyring, retired);
  }

  /** The variable is not set. */
  predicate Unset(env: Env, name: string) {
    forall k :: 0 <= k < |env| ==> env[k].0 != name
  }

  /** A new variable that registers under a fresh id never rejects what was accepted. */
  lemma AddingOnlyAccepts(mac: Mac, plan: Plan, env: Env, name: string, value: string, retired: set<string>)
    requires Verify(mac, plan, Keys(env), retired) == Accepted
    requires Unset(env, name) && var entry := EntryOf(name, value); entry.Some? ==> entry.value.id !in Keys(env)
    ensures Verify(mac, plan, Keys(env + [(name, value)]), retired) == Accepted
  {
    VerifyIff(mac, plan, Keys(env), retired);
    VerifyIff(mac, plan, Keys(env + [(name, value)]), retired);
    assert (env + [(name, value)])[..|env|] == env;
  }

  // ---- Rotation -------------------------------------------------------------------------------------------------------------------

  /** Who signs now, and with what. */
  datatype Signer = Signer(approver: string, kid: string, key: string)

  datatype Approved = Approved(plan: Plan, signer: Signer)

  datatype Deployment = Deployment(env: Env, retiredRaw: string, signer: Signer, approved: seq<Approved>)

  /** The steps of a rotation: set a new keyed variable, move signers to another key, retire a token, approve a plan. */
  datatype Step =
    | AddKey(authority: string, kid: string, key: string)
    | MoveSigner(signer: Signer)
    | Retire(tok: string)
    | Approve(core: string, timestamp: string, contract: string)

  /** The keyring holds the signer's key and its key id is not retired. */
  predicate Active(s: Signer, keyring: Keyring, retired: set<string>) {
    && s.approver != "" && s.key != "" && !IsRetired(s.approver, s.kid, retired)
    && IdOf(s.approver, s.kid) in keyring && keyring[IdOf(s.approver, s.kid)] == s.key
  }

  /** The documented order: keys are added under fresh ids, signers move to active keys, and the current key id stays. */
  predicate Allowed(d: Deployment, step: Step) {
    match step
    case AddKey(authority, kid, key) =>
      && Bare(authority) && Bare(kid) && key != "" && FirstSep(authority + "_", 0).None?
      && KeyedId(Lower(authority), Lower(kid)) !in Keys(d.env) && Unset(d.env, ENV_KEY_PREFIX + KeyedSuffix(authority, kid))
    case MoveSigner(signer) => Active(signer, Keys(d.env), RetiredKids(d.retiredRaw))
    case Retire(tok) => ',' !in tok && Strip(tok) != "" && !IsRetired(d.signer.approver, d.signer.kid, {Fold(tok)})
    case Approve(_, timestamp, contract) => timestamp != "" && contract in SUPPORTED_CONTRACT_VERSIONS
  }

  function Do(mac: Mac, d: Deployment, step: Step): Deployment {
    match step
    case AddKey(authority, kid, key) => d.(env := d.env + [(ENV_KEY_PREFIX + KeyedSuffix(authority, kid), key)])
    case MoveSigner(signer) => d.(signer := signer)
    case Retire(tok) => d.(retiredRaw := d.retiredRaw + "," + tok)
    case Approve(core, timestamp, contract) =>
      var envelope := Sign(mac, core, d.signer.key, d.signer.approver, timestamp, contract, d.signer.kid);
      d.(approved := d.approved + [Approved(Plan(core, Some(envelope)), d.signer)])
  }

  ghost predicate IsRotation(mac: Mac, d: Deployment, steps: seq<Step>, d': Deployment)
    decreases |steps|
  {
    if steps == [] then d' == d
    else Allowed(d, steps[0]) && IsRotation(mac, Do(mac, d, steps[0]), steps[1..], d')
  }

  /** The plan was signed by its signer, whose key is still on the keyring. */
  predicate Backed(mac: Mac, a: Approved, keyring: Keyring) {
    && a.plan.approval.Some?
    && var e, s := a.plan.approval.value, a.signer;
       && s.approver != "" && s.key != "" && e.timestamp != "" && e.contract in SUPPORTED_CONTRACT_VERSIONS
       && e == Sign(mac, a.plan.core, s.key, s.approver, e.timestamp, e.contract, s.kid)
       && IdOf(s.approver, s.kid) in keyring && keyring[IdOf(s.approver, s.kid)] == s.key
  }

  ghost predicate Sound(mac: Mac, d: Deployment) {
    && Active(d.signer, Keys(d.env), RetiredKids(d.retiredRaw))
    && forall k :: 0 <= k < |d.approved| ==> Backed(mac, d.approved[k], Keys(d.env))
  }

  lemma BackedVerifiesIff(mac: Mac, a: Approved, keyring: Keyring, retired: set<string>)
    requires Backed(mac, a, keyring)
    ensures Verify(mac, a.plan, keyring, retired) == Accepted <==> !IsRetired(a.signer.approver, a.signer.kid, retired)
  {
    VerifyIff(mac, a.plan, keyring, retired);
  }

  lemma StepKeepsSound(mac: Mac, d: Deployment, step: Step)
    requires Sound(mac, d) && Allowed(d, step)
    ensures Sound(mac, Do(mac, d, step))
  {
    hide ENV_KEY_PREFIX, EntryOf, FirstSep, Fold, Strip, Lower, Split, FoldAll, RetiredKids;
    match step
    case AddKey(authority, kid, key) =>
      KeyedVariableReadsBackIff(authority, kid, key);
      var d' := Do(mac, d, step);
      assert d'.env[..|d.env|] == d.env;
    case MoveSigner(signer) =>
    case Retire(tok) => RetireReadsBack(d.retiredRaw, tok);
    case Approve(core, timestamp, contract) =>
  }

  lemma {:induction false} RotationKeepsSound(mac: Mac, d: Deployment, steps: seq<Step>, d': Deployment)
    requires Sound(mac, d) && IsRotation(mac, d, steps, d')
    ensures Sound(mac, d')
    decreases |steps|
  {
    if steps != [] {
      StepKeepsSound(mac, d, steps[0]);
      RotationKeepsSound(mac, Do(mac, d, steps[0]), steps[1..], d');
    }
  }

  /** Through any rotation in the documented order, a plan approved at any point verifies if and only if its signer's key id
      has not been retired; so both keys are accepted throughout the overlap. */
  lemma ApprovedVerifiesUntilRetired(mac: Mac, d: Deployment, steps: seq<Step>, d': Deployment, k: nat)
    requires Sound(mac, d) && IsRotation(mac, d, steps, d') && k < |d'.approved|
    ensures Verify(mac, d'.approved[k].plan, Keys(d'.env), RetiredKids(d'.retiredRaw)) == Accepted
       <==> !IsRetired(d'.approved[k].signer.approver, d'.approved[k].signer.kid, RetiredKids(d'.retiredRaw))
  {
    RotationKeepsSound(mac, d, steps, d');
    BackedVerifiesIff(mac, d'.approved[k], Keys(d'.env), RetiredKids(d'.retiredRaw));
  }

  /** At every point of a rotation, what the current signer signs verifies. */
  lemma CurrentSignerVerifies(mac: Mac, d: Deployment, steps: seq<Step>, d': Deployment, core: string, timestamp: string, contract: string)
    requires Sound(mac, d) && IsRotation(mac, d, steps, d')
    requires timestamp != "" && contract in SUPPORTED_CONTRACT_VERSIONS
    ensures var s := d'.signer;
            var envelope := Sign(mac, core, s.key, s.approver, timestamp, contract, s.kid);
            Verify(mac, Plan(core, Some(envelope)), Keys(d'.env), RetiredKids(d'.retiredRaw)) == Accepted
  {
    RotationKeepsSound(mac, d, steps, d');
    var s := d'.signer;
    var envelope := Sign(mac, core, s.key, s.approver, timestamp, contract, s.kid);
    VerifyIff(mac, Plan(core, Some(envelope)), Keys(d'.env), RetiredKids(d'.retiredRaw));
  }

  /** Once retired, always rejected: no later step of a rotation brings an approved plan back. */
  lemma {:induction false} RetiredForGood(mac: Mac, d: Deployment, steps: seq<Step>, d': Deployment, approver: string, kid: string)
    requires IsRotation(mac, d, steps, d') && IsRetired(approver, kid, RetiredKids(d.retiredRaw))
    ensures IsRetired(approver, kid, RetiredKids(d'.retiredRaw))
    decreases |steps|
  {
    if steps != [] {
      if steps[0].Retire? {
        RetireReadsBack(d.retiredRaw, steps[0].tok);
      }
      RetiredForGood(mac, Do(mac, d, steps[0]), steps[1..], d', approver, kid);
    }
  }

  /** A deployment with one legacy key is where rotations can begin. */
  lemma LegacyDeploymentIsSound(mac: Mac, authority: string, key: string)
    requires Bare(authority) && key != "" && FirstSep(authority, 0).None?
    ensures Sound(mac, Deployment([(ENV_KEY_PREFIX + authority, key)], "", Signer(authority, "", key), []))
  {
    LegacyVariableReadsBack(authority, key);
    FoldOfBare(authority);
    var env := [(ENV_KEY_PREFIX + authority, key)];
    hide ENV_KEY_PREFIX, EntryOf, FirstSep, Lower, Fold;
    assert env[..0] == [] && Keys(env)[Lower(authority)] == key;
  }

  /** The documented rotation: add a key under a fresh id, move the signer to it, retire the old one. It is a rotation, and
      afterwards exactly the old key id is newly retired. */
  lemma DocumentedRotation(mac: Mac, d: Deployment, kid: string, key: string, steps: seq<Step>) returns (d': Deployment)
    requires Sound(mac, d) && Bare(d.signer.approver) && FirstSep(d.signer.approver + "_", 0).None?
    requires Bare(kid) && key != "" && ',' !in d.signer.kid && Strip(d.signer.kid) != ""
    requires KeyedId(Lower(d.signer.approver), Lower(kid)) !in Keys(d.env)
    requires Unset(d.env, ENV_KEY_PREFIX + KeyedSuffix(d.signer.approver, kid))
    requires !IsRetired(d.signer.approver, kid, RetiredKids(d.retiredRaw) + {Fold(d.signer.kid)})
    requires steps == [AddKey(d.signer.approver, kid, key), MoveSigner(Signer(d.signer.approver, kid, key)), Retire(d.signer.kid)]
    ensures IsRotation(mac, d, steps, d') && d'.signer == Signer(d.signer.approver, kid, key)
    ensures RetiredKids(d'.retiredRaw) == RetiredKids(d.retiredRaw) + {Fold(d.signer.kid)}
  {
    KeyIsAdded(mac, d, kid, key);
    RetireReadsBack(d.retiredRaw, d.signer.kid);
    hide Allowed, Active, Sound, IsRetired, RetiredKids, Strip, Fold, Bare, FirstSep, KeyedId, Keys, Unset, KeyedSuffix, ENV_KEY_PREFIX;
    var d1 := Do(mac, d, steps[0]);
    var d2 := Do(mac, d1, steps[1]);
    SignerIsMoved(mac, d1, kid, key, d.signer.kid);
    d' := Do(mac, d2, steps[2]);
    assert steps[1..][1..] == [steps[2]] && steps[1..][0] == steps[1];
    OneStep(mac, d2, steps[2]);
  }

  /** The new key may be added, and is then on the keyring under the approver and the new key id. */
  lemma KeyIsAdded(mac: Mac, d: Deployment, kid: string, key: string)
    requires Bare(d.signer.approver) && FirstSep(d.signer.approver + "_", 0).None? && Bare(kid) && key != ""
    requires KeyedId(Lower(d.signer.approver), Lower(kid)) !in Keys(d.env)
    requires Unset(d.env, ENV_KEY_PREFIX + KeyedSuffix(d.signer.approver, kid))
    requires !IsRetired(d.signer.approver, kid, RetiredKids(d.retiredRaw) + {Fold(d.signer.kid)}) && d.signer.approver != ""
    ensures var step := AddKey(d.signer.approver, kid, key);
      && Allowed(d, step)
      && var d1 := Do(mac, d, step);
         && d1.signer == d.signer && d1.retiredRaw == d.retiredRaw
         && Active(Signer(d.signer.approver, kid, key), Keys(d1.env), RetiredKids(d1.retiredRaw))
         && !IsRetired(d.signer.approver, kid, {Fold(d.signer.kid)})
  {
    var a := d.signer.approver;
    KeyedVariableReadsBackIff(a, kid, key);
    FoldOfBare(a);
    FoldOfBare(kid);
    hide ENV_KEY_PREFIX, EntryOf, FirstSep, Lower, Fold, Strip, RetiredKids, Unset;
    var d1 := Do(mac, d, AddKey(a, kid, key));
    assert d1.env[..|d.env|] == d.env;
  }

  /** Once the signer uses the new key, the old key id may be retired. */
  lemma SignerIsMoved(mac: Mac, d: Deployment, kid: string, key: string, former: string)
    requires Active(Signer(d.signer.approver, kid, key), Keys(d.env), RetiredKids(d.retiredRaw))
    requires ',' !in former && Strip(former) != "" && !IsRetired(d.signer.approver, kid, {Fold(former)})
    ensures var step := MoveSigner(Signer(d.signer.approver, kid, key)); Allowed(d, step) && Allowed(Do(mac, d, step), Retire(former))
  {
    hide Active, IsRetired, Strip, Fold, RetiredKids, Keys;
  }

  lemma OneStep(mac: Mac, d: Deployment, step: Step)
    requires Allowed(d, step)
    ensures IsRotation(mac, d, [step], Do(mac, d, step))
  {
    assert [step][1..] == [];
  }
}

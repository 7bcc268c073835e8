/** The tournament form of `src/pages/TournamentConfig.tsx`: a name and the
    numbers of semifinal and final matches, kept as text. The count fields
    are normalised as they are typed, and saving checks the form and turns
    "na" into "0". The stored configuration and the clock are inputs. */
module TournamentConfig {
  import opened Common
  import opened JsText

  /** The form's state: three text fields. */
  datatype Config = Config(tournamentName: string, semifinals: string, finals: string)

  /** What the page stores on save: the form plus an id taken from the clock. */
  datatype SavedConfig = SavedConfig(tournamentName: string, semifinals: string, finals: string, tournamentId: string)

  datatype Field = SemifinalsField | FinalsField

  datatype SaveError = MissingName | NoMatches

  const DEFAULT_CONFIG: Config := Config("", "0", "1")

  /** The initial state: the stored configuration, or the default one. */
  function Initial(saved: Option<Config>): (r: Config)
    ensures saved.Some? ==> r == saved.value
    ensures saved.None? ==> r.tournamentName == "" && r.semifinals == "0" && r.finals == "1"
  {
    saved.GetOr(DEFAULT_CONFIG)
  }

  /** `handleInputChange` on one count field holding `current`: "NA" for any
      spelling of "na", the empty string kept, a number stored as the decimal
      text of `max(0, n)`, anything else ignored. */
  function InputChange(current: string, value: string): string {
    if IsNaAnyCase(value) then "NA"
    else if value == "" then ""
    else
      match ParseInt(value)
      case Some(n) => NatToString(Max0(n))
      case None => current
  }

  /** The texts a count field can hold after an edit. */
  ghost predicate Normalised(s: string) {
    s == "" || s == "NA" || exists n: nat :: s == NatToString(n)
  }

  /** What an edit stores: "NA", the empty text, the decimal text of the
      clamped number (which parses back to that number), or, when the input
      is none of these, the field as it was. */
  lemma InputChangeSpec(current: string, value: string)
    ensures IsNaAnyCase(value) ==> InputChange(current, value) == "NA"
    ensures value == "" ==> InputChange(current, value) == ""
    ensures forall n :: !IsNaAnyCase(value) && value != "" && ParseInt(value) == Some(n) ==>
              InputChange(current, value) == NatToString(Max0(n))
              && ParseInt(InputChange(current, value)) == Some(Max0(n))
    ensures !IsNaAnyCase(value) && value != "" && ParseInt(value).None? ==> InputChange(current, value) == current
    ensures InputChange(current, value) == current || Normalised(InputChange(current, value))
  {
    if !IsNaAnyCase(value) && value != "" && ParseInt(value).Some? {
      ParseIntOfNatToString(Max0(ParseInt(value).value));
    }
  }

  /** A decimal text is not any-case "na". */
  lemma NatToStringIsNotNa(n: nat)
    ensures !IsNaAnyCase(NatToString(n))
  {
    var s := NatToString(n);
    assert IsDigit(s[0], 10);
  }

  /** A normalised text is stored unchanged when typed, for any old value. */
  lemma {:induction false} NormalisedIsFixed(s: string, current: string)
    requires Normalised(s)
    ensures InputChange(current, s) == s
  {
    if s != "" && s != "NA" {
      var n: nat :| s == NatToString(n);
      NatToStringIsNotNa(n);
      ParseIntOfNatToString(n);
    }
  }

  /** The default counts are normalised, edits keep a normalised field
      normalised, and typing what an edit stored changes nothing. */
  lemma {:induction false} InputChangeIdempotent(current: string, value: string)
    requires Normalised(current)
    ensures Normalised(DEFAULT_CONFIG.semifinals) && Normalised(DEFAULT_CONFIG.finals)
    ensures var r := InputChange(current, value);
            Normalised(r) && InputChange(r, r) == r
  {
    assert DEFAULT_CONFIG.semifinals == NatToString(0);
    assert DEFAULT_CONFIG.finals == NatToString(1);
    InputChangeSpec(current, value);
    var r := InputChange(current, value);
    NormalisedIsFixed(r, r);
  }

  /** The form after an edit of one count field; the other fields stay. */
  function ConfigInputChange(c: Config, field: Field, value: string): (r: Config)
    ensures r.tournamentName == c.tournamentName
    ensures field == SemifinalsField ==> r.finals == c.finals && r.semifinals == InputChange(c.semifinals, value)
    ensures field == FinalsField ==> r.semifinals == c.semifinals && r.finals == InputChange(c.finals, value)
  {
    match field
    case SemifinalsField => c.(semifinals := InputChange(c.semifinals, value))
    case FinalsField => c.(finals := InputChange(c.finals, value))
  }

  /** A count that configures no matches: "0" or any spelling of "na". */
  predicate NoneConfigured(count: string) {
    count == "0" || IsNaAnyCase(count)
  }

  /** The stored form of a count: "na" in any case becomes "0". */
  function NaToZero(count: string): string {
    if IsNaAnyCase(count) then "0" else count
  }

  /** `handleSave`: a name that is blank once trimmed is refused, then a form
      with no semifinals and no finals; otherwise the form is stored with
      "na" turned into "0" and `now` as its id. The name is stored as typed. */
  function Save(c: Config, now: string): Result<SavedConfig, SaveError> {
    if Trim(c.tournamentName) == "" then Err(MissingName)
    else if NoneConfigured(c.semifinals) && NoneConfigured(c.finals) then Err(NoMatches)
    else Ok(SavedConfig(c.tournamentName, NaToZero(c.semifinals), NaToZero(c.finals), now))
  }

  /** Saving fails for a blank name first, then for a form with no matches;
      a stored form keeps the name as typed, never holds "na", keeps every
      other count text, and configures at least one kind of match. */
  lemma SaveSpec(c: Config, now: string)
    ensures Save(c, now) == Err(MissingName) <==> IsBlank(c.tournamentName)
    ensures Save(c, now) == Err(NoMatches) <==>
              !IsBlank(c.tournamentName) && NoneConfigured(c.semifinals) && NoneConfigured(c.finals)
    ensures Save(c, now).Ok? <==>
              !IsBlank(c.tournamentName) && !(NoneConfigured(c.semifinals) && NoneConfigured(c.finals))
    ensures Save(c, now).Ok? ==>
              var s := Save(c, now).value;
              s.tournamentName == c.tournamentName && s.tournamentId == now
              && !IsNaAnyCase(s.semifinals) && !IsNaAnyCase(s.finals)
              && (!IsNaAnyCase(c.semifinals) ==> s.semifinals == c.semifinals)
              && (!IsNaAnyCase(c.finals) ==> s.finals == c.finals)
              && (IsNaAnyCase(c.semifinals) ==> s.semifinals == "0")
              && (IsNaAnyCase(c.finals) ==> s.finals == "0")
              && (s.semifinals != "0" || s.finals != "0")
  {
    TrimEmptyIffBlank(c.tournamentName);
  }
}

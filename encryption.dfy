/** Decoding the `-e` / `--encryption` argument of main.go. */
module Encryption {
  import opened Wrappers
  import opened Text

  datatype EncryptionMode = EncryptionAuto | EncryptionOn | EncryptionOff

  /** The lower-case spellings accepted for each mode. */
  function Spellings(mode: EncryptionMode): set<string>
  {
    match mode
    case EncryptionAuto => {"auto"}
    case EncryptionOn => {"true", "yes", "y", "1"}
    case EncryptionOff => {"false", "no", "n", "0"}
  }

  /**
   * The `switch` on `strings.ToLower` of the argument: a decoded mode is one
   * whose spellings contain the lower-cased argument; anything else is fatal.
   */
  function DecodeEncryptionMode(s: string): (r: Result<EncryptionMode>)
    ensures r.Ok? ==> Lower(s) in Spellings(r.value)
    ensures r.Err? ==> r.msg == "Invalid encryption mode '" + s + "', needs to be one of 'auto', 'true' or 'false'"
  {
    match Lower(s)
    case "auto" => Ok(EncryptionAuto)
    case "true" => Ok(EncryptionOn)
    case "yes" => Ok(EncryptionOn)
    case "y" => Ok(EncryptionOn)
    case "1" => Ok(EncryptionOn)
    case "false" => Ok(EncryptionOff)
    case "no" => Ok(EncryptionOff)
    case "n" => Ok(EncryptionOff)
    case "0" => Ok(EncryptionOff)
    case _ => Err("Invalid encryption mode '" + s + "', needs to be one of 'auto', 'true' or 'false'")
  }

  lemma SpellingsAreLowerCase(mode: EncryptionMode, w: string)
    requires w in Spellings(mode)
    ensures Lower(w) == w
  {
  }

  /**
   * A string decodes to `mode` exactly when it equals, ignoring case, one of
   * the spellings of `mode`.
   */
  lemma DecodeAccepts(s: string, mode: EncryptionMode)
    ensures DecodeEncryptionMode(s) == Ok(mode) <==> exists w :: w in Spellings(mode) && EqualIgnoringCase(s, w)
  {
    if DecodeEncryptionMode(s) == Ok(mode) {
      var w := Lower(s);
      assert w in Spellings(mode);
      SpellingsAreLowerCase(mode, w);
      LowerEqualIff(s, w);
    }
    if exists w :: w in Spellings(mode) && EqualIgnoringCase(s, w) {
      var w :| w in Spellings(mode) && EqualIgnoringCase(s, w);
      SpellingsAreLowerCase(mode, w);
      LowerEqualIff(s, w);
    }
  }

  /**
   * Every string that matches no spelling of any mode, ignoring case, is
   * rejected, with a message quoting it as given.
   */
  lemma DecodeRejects(s: string)
    ensures DecodeEncryptionMode(s).Err? <==>
              forall mode, w :: w in Spellings(mode) ==> !EqualIgnoringCase(s, w)
    ensures DecodeEncryptionMode(s).Err? ==>
              DecodeEncryptionMode(s).msg == "Invalid encryption mode '" + s + "', needs to be one of 'auto', 'true' or 'false'"
  {
    forall mode ensures DecodeEncryptionMode(s) == Ok(mode) <==> exists w :: w in Spellings(mode) && EqualIgnoringCase(s, w) {
      DecodeAccepts(s, mode);
    }
  }

  /** Decoding ignores case: strings equal up to case decode alike. */
  lemma DecodeIgnoresCase(s: string, t: string)
    requires EqualIgnoringCase(s, t)
    ensures DecodeEncryptionMode(s).Ok? <==> DecodeEncryptionMode(t).Ok?
    ensures DecodeEncryptionMode(s).Ok? ==> DecodeEncryptionMode(s) == DecodeEncryptionMode(t)
  {
    LowerEqualIff(s, t);
  }
}

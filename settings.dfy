// The settings app/config.py reads from the environment when it is imported,
// and the `DISABLE_SEND_FOLLOWUP` flag app/followup_service.py reads on its own.

module Settings {
  import opened Wrappers
  import opened Text

  /** The process environment. */
  type Env = map<string, string>

  /** `os.getenv(key)`. */
  function Getenv(env: Env, key: string): Option<string> {
    if key in env then Some(env[key]) else None
  }

  /** `FOLLOWUP_TEMPLATES` always has exactly three entries, each overridable by the environment. */
  type Templates = t: seq<string> | |t| == 3 witness ["", "", ""]

  datatype Config = Config(templates: Templates, minDays: int, maxDays: int, batchSize: int,
                           maxFollowUps: int, disableSend: bool)

  /** The defaults of `FOLLOWUP_TEMPLATE_1`, `_2` and `_3`. */
  function DefaultTemplate(k: nat): string
    requires k < 3
  {
    if k == 0 then "I hope you are doing well.\nI just wanted to check in and gently follow up with you on my previous message. Looking forward to hearing back from you.\n\nThank you for your time and consideration."
    else if k == 1 then "I just wanted to follow up on my last message.\n\nPlease let me know if you have any questions."
    else "Hope you're well!\n\nJust following up regarding my earlier email."
  }

  function LoadTemplates(env: Env): (t: Templates)
    ensures forall k :: 0 <= k < 3 ==> t[k] == Getenv(env, TemplateKey(k)).GetOr(DefaultTemplate(k))
  {
    seq(3, k requires 0 <= k < 3 => Getenv(env, TemplateKey(k)).GetOr(DefaultTemplate(k)))
  }

  function TemplateKey(k: nat): string
    requires k < 3
  {
    if k == 0 then "FOLLOWUP_TEMPLATE_1" else if k == 1 then "FOLLOWUP_TEMPLATE_2" else "FOLLOWUP_TEMPLATE_3"
  }

  /** `int(s)` on ASCII text: blanks around, one optional sign, at least one digit; anything else raises. */
  function ParseInt(s: string): Option<int> {
    ParseStripped(Strip(s))
  }

  /** `int` on text without surrounding blanks. */
  function ParseStripped(t: string): (r: Option<int>)
    ensures r.Some? ==> t != []
  {
    var signed := |t| > 0 && (t[0] == '-' || t[0] == '+');
    var digits := if signed then t[1..] else t;
    if digits != [] && AllDigits(digits) then
      var v: int := DigitsValue(digits);
      Some(if signed && t[0] == '-' then -v else v)
    else None
  }

  /** `int(os.getenv(key, default))`; `None` where `int` raises. */
  function IntSetting(env: Env, key: string, default: int): Option<int> {
    if key in env then ParseInt(env[key]) else Some(default)
  }

  /** `DISABLE_SEND_FOLLOWUP` as app/followup_service.py reads it: unset reads as `0`; on for `1`, `true`, `True`. */
  function DisableSend(v: Option<string>): bool {
    var s := v.GetOr("0");
    s == "1" || s == "true" || s == "True"
  }

  /** `DISABLE_SEND_FOLLOWUP` as app/config.py reads it, `bool(int(...))`; `None` where `int` raises. */
  function ConfigDisableSend(v: Option<string>): Option<bool> {
    var n := ParseInt(v.GetOr("0"));
    if n.None? then None else Some(n.value != 0)
  }

  /** The module's settings from `ints` and the flag, `None` when a conversion raised. */
  function Assemble(env: Env, flag: Option<bool>): Option<Config> {
    var minDays := IntSetting(env, "MIN_DAYS", 2);
    var maxDays := IntSetting(env, "MAX_DAYS", 30);
    var batchSize := IntSetting(env, "BATCH_SIZE", 20);
    var maxFollowUps := IntSetting(env, "MAX_FOLLOW_UPS", 3);
    if minDays.None? || maxDays.None? || batchSize.None? || maxFollowUps.None? || flag.None? then None
    else Some(Config(LoadTemplates(env), minDays.value, maxDays.value, batchSize.value, maxFollowUps.value, flag.value))
  }

  /** Importing app/config.py as written: any `int` that raises aborts the import. */
  function LoadConfigAsWritten(env: Env): Option<Config> {
    Assemble(env, ConfigDisableSend(Getenv(env, "DISABLE_SEND_FOLLOWUP")))
  }

  /** Importing app/config.py with the flag read as the follow-up service reads it. */
  function LoadConfig(env: Env): Option<Config> {
    Assemble(env, Some(DisableSend(Getenv(env, "DISABLE_SEND_FOLLOWUP"))))
  }

  /** With nothing set, the settings are the defaults: 2, 30, 20 and 3, sending on, the default templates. */
  lemma LoadConfigDefaults()
    ensures LoadConfig(map[]).Some? && LoadConfigAsWritten(map[]).Some?
    ensures var c := LoadConfig(map[]).value;
      && c.minDays == 2 && c.maxDays == 30 && c.batchSize == 20 && c.maxFollowUps == 3 && !c.disableSend
      && forall k :: 0 <= k < 3 ==> c.templates[k] == DefaultTemplate(k)
    ensures LoadConfigAsWritten(map[]) == LoadConfig(map[])
  {
    DisableSendUnset();
  }

  /** A loaded configuration carries the service's reading of the flag. */
  lemma LoadConfigFlag(env: Env)
    requires LoadConfig(env).Some?
    ensures LoadConfig(env).value.disableSend == DisableSend(Getenv(env, "DISABLE_SEND_FOLLOWUP"))
  {
  }

  /** The flag's value never stops the corrected import; the other settings alone decide. */
  lemma LoadConfigIgnoresFlagText(env: Env, v: string)
    ensures LoadConfig(env["DISABLE_SEND_FOLLOWUP" := v]).Some? <==> LoadConfig(env - {"DISABLE_SEND_FOLLOWUP"}).Some?
  {
    var e1 := env["DISABLE_SEND_FOLLOWUP" := v];
    var e2 := env - {"DISABLE_SEND_FOLLOWUP"};
    assert forall k :: k != "DISABLE_SEND_FOLLOWUP" ==> Getenv(e1, k) == Getenv(e2, k);
    assert forall k :: k != "DISABLE_SEND_FOLLOWUP" ==> (k in e1 <==> k in e2);
    assert "MIN_DAYS" != "DISABLE_SEND_FOLLOWUP" && "MAX_DAYS" != "DISABLE_SEND_FOLLOWUP";
    assert "BATCH_SIZE" != "DISABLE_SEND_FOLLOWUP" && "MAX_FOLLOW_UPS" != "DISABLE_SEND_FOLLOWUP";
  }

  /** Wherever the import as written succeeds, the corrected one yields the same settings, up to the flag's reading. */
  lemma AsWrittenLoadsLess(env: Env)
    requires LoadConfigAsWritten(env).Some?
    ensures LoadConfig(env).Some?
    ensures LoadConfig(env).value.(disableSend := false) == LoadConfigAsWritten(env).value.(disableSend := false)
  {
  }

  /** `DISABLE_SEND_FOLLOWUP=true` aborts the import as written, while the service means it as "do not send". */
  lemma TrueFlagAbortsImport(env: Env, t: string)
    requires t == "true" && env == map["DISABLE_SEND_FOLLOWUP" := t]
    ensures LoadConfigAsWritten(env).None?
    ensures LoadConfig(env).Some? && LoadConfig(env).value.disableSend
  {
    DisableSendTrue(t);
    assert Getenv(env, "DISABLE_SEND_FOLLOWUP") == Some(t);
    assert "MIN_DAYS" !in env && "MAX_DAYS" !in env && "BATCH_SIZE" !in env && "MAX_FOLLOW_UPS" !in env;
  }

  /** A string that neither starts nor ends with a blank is its own `strip()`. */
  lemma StripEnds(s: string)
    requires s != [] && !IsSpace(s[0]) && !IsSpace(s[|s| - 1])
    ensures Strip(s) == s
  {
    assert TrimLeft(s) == s;
  }

  /** A single digit parses to its value. */
  lemma ParseDigit(s: string)
    requires |s| == 1 && IsDigit(s[0])
    ensures ParseInt(s) == Some(s[0] as int - '0' as int)
  {
    ParseUnsigned(s);
    assert s[..0] == [];
  }

  /** Digits alone parse to their value. */
  lemma ParseUnsigned(s: string)
    requires s != [] && AllDigits(s)
    ensures ParseInt(s) == Some(DigitsValue(s) as int)
  {
    StripEnds(s);
    assert !(s[0] == '-' || s[0] == '+');
    assert ParseStripped(s) == Some(DigitsValue(s) as int);
  }

  /** `0` reads as off both ways. */
  lemma DisableSendZero(zero: string)
    requires zero == "0"
    ensures !DisableSend(Some(zero)) && ConfigDisableSend(Some(zero)) == Some(false)
  {
    assert zero[0] == '0' && |zero| == 1;
    assert zero != "1" && zero != "true" && zero != "True";
    ConfigDigit(zero);
  }

  /** `1` reads as on both ways. */
  lemma DisableSendOne(one: string)
    requires one == "1"
    ensures DisableSend(Some(one)) && ConfigDisableSend(Some(one)) == Some(true)
  {
    assert one[0] == '1';
    ConfigDigit(one);
  }

  /** A single digit reads as on unless it is `0`. */
  lemma ConfigDigit(d: string)
    requires |d| == 1 && IsDigit(d[0])
    ensures ConfigDisableSend(Some(d)) == Some(d[0] != '0')
  {
    ParseDigit(d);
  }

  /** Unset reads as off both ways. */
  lemma DisableSendUnset()
    ensures !DisableSend(None) && ConfigDisableSend(None) == Some(false)
  {
    DisableSendZero("0");
    assert ConfigDisableSend(None) == ConfigDisableSend(Some("0"));
  }

  /** `true` turns sending off in the follow-up service but makes app/config.py raise. */
  lemma DisableSendTrue(t: string)
    requires t == "true"
    ensures DisableSend(Some(t)) && ConfigDisableSend(Some(t)).None?
  {
    assert t[0] == 't' && t[|t| - 1] == 'e';
    StripEnds(t);
    assert !IsDigit(t[0]);
  }

  /** `2` leaves sending on in the follow-up service but reads as on in app/config.py. */
  lemma DisableSendTwo(two: string)
    requires two == "2"
    ensures !DisableSend(Some(two)) && ConfigDisableSend(Some(two)) == Some(true)
  {
    ConfigDigit(two);
  }
}

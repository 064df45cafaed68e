/**
 * The Mail-Verification Requirement Rule: registration asks for an
 * e-mail verification code only when a real SMTP server is configured
 * with credentials. The SMTP settings are an input; `getSmtpSettings`,
 * which reads them from the database, is not part of this model.
 */
module EmailVerification {
  import opened Wrappers
  import opened Text

  /** `settings.smtp`: each field may be missing. */
  datatype SmtpSettings = SmtpSettings(host: Option<string>, user: Option<string>, pass: Option<string>)

  /** The host every fresh installation ships with. */
  const PlaceholderHost: string := "smtp.example.com"

  /** normalizeHost: a missing value is the empty string; trimmed, then lower-cased. */
  function NormalizeHost(value: Option<string>): (h: string)
    // no white space at either end, and no upper-case ASCII letter
    ensures h == [] || (!IsSpace(h[0]) && !IsSpace(h[|h| - 1]))
    ensures forall i :: 0 <= i < |h| ==> !('A' <= h[i] <= 'Z')
    // a missing value normalises to the empty string
    ensures value.None? ==> h == []
  {
    var t := Trim(value.GetOr(""));
    if t == [] then []
    else
      LowerKeepsSpace(t[0]);
      LowerKeepsSpace(t[|t| - 1]);
      ToLower(t)
  }

  /** isPlaceholderSmtpHost. */
  predicate IsPlaceholderSmtpHost(host: Option<string>)
    // a missing or blank host is never the placeholder
    ensures IsPlaceholderSmtpHost(host) ==> host.Some? && Trim(host.value) != []
  {
    NormalizeHost(host) == PlaceholderHost
  }

  /** The placeholder is recognised whatever the case of its letters. */
  lemma PlaceholderIgnoresCase(s: string)
    ensures IsPlaceholderSmtpHost(Some(ToLower(s))) <==> IsPlaceholderSmtpHost(Some(s))
  {
    TrimLower(s);
    LowerIdempotent(Trim(s));
  }

  /** The placeholder is recognised whatever white space surrounds it. */
  lemma PlaceholderIgnoresSpace(before: string, s: string, after: string)
    requires s != [] && !IsSpace(s[0]) && !IsSpace(s[|s| - 1])
    requires forall i :: 0 <= i < |before| ==> IsSpace(before[i])
    requires forall i :: 0 <= i < |after| ==> IsSpace(after[i])
    ensures IsPlaceholderSmtpHost(Some(before + s + after)) <==> IsPlaceholderSmtpHost(Some(s))
  {
    TrimSurrounded(before, s, after);
    TrimNoop(s);
  }

  /** `String(value || '').trim()`: a missing value is the empty string. */
  function Field(value: Option<string>): string {
    Trim(value.GetOr(""))
  }

  /** `settings?.smtp?.host` and its siblings: missing when there are no SMTP settings. */
  function HostOf(smtp: Option<SmtpSettings>): Option<string> { if smtp.None? then None else smtp.value.host }
  function UserOf(smtp: Option<SmtpSettings>): Option<string> { if smtp.None? then None else smtp.value.user }
  function PassOf(smtp: Option<SmtpSettings>): Option<string> { if smtp.None? then None else smtp.value.pass }

  /** isRegisterEmailVerificationRequired, given what getSmtpSettings returned. */
  predicate IsRegisterEmailVerificationRequired(smtp: Option<SmtpSettings>)
    // host, user and password must all be present
    ensures IsRegisterEmailVerificationRequired(smtp) ==>
              smtp.Some? && smtp.value.host.Some? && smtp.value.user.Some? && smtp.value.pass.Some?
  {
    var host := Field(HostOf(smtp));
    if host == [] then false
    else if IsPlaceholderSmtpHost(Some(host)) then false
    else Field(UserOf(smtp)) != [] && Field(PassOf(smtp)) != []
  }

  /** The host is normalised the same whether or not it was trimmed first. */
  lemma NormalizeTrimmed(value: Option<string>)
    ensures NormalizeHost(Some(Field(value))) == NormalizeHost(value)
  {
    TrimIdempotent(value.GetOr(""));
  }

  /**
   * Verification is required exactly when the host is neither blank nor
   * the placeholder (in any case, with any surrounding white space), and
   * both user and password are non-blank.
   */
  lemma RequiredIff(smtp: Option<SmtpSettings>)
    ensures IsRegisterEmailVerificationRequired(smtp)
            <==> && Field(HostOf(smtp)) != []
                 && !IsPlaceholderSmtpHost(HostOf(smtp))
                 && Field(UserOf(smtp)) != []
                 && Field(PassOf(smtp)) != []
  {
    NormalizeTrimmed(HostOf(smtp));
  }

  /** Without a usable host, no user or password makes verification required. */
  lemma NoHostNoVerification(smtp: Option<SmtpSettings>, user: Option<string>, pass: Option<string>)
    requires smtp.Some?
    requires Field(smtp.value.host) == [] || IsPlaceholderSmtpHost(smtp.value.host)
    ensures !IsRegisterEmailVerificationRequired(Some(smtp.value.(user := user, pass := pass)))
  {
    RequiredIff(Some(smtp.value.(user := user, pass := pass)));
  }

  /** A field that is only white space counts as missing. */
  lemma BlankIsMissing(c: SmtpSettings, blank: string)
    requires forall i :: 0 <= i < |blank| ==> IsSpace(blank[i])
    ensures IsRegisterEmailVerificationRequired(Some(c.(user := Some(blank))))
            == IsRegisterEmailVerificationRequired(Some(c.(user := None)))
    ensures IsRegisterEmailVerificationRequired(Some(c.(pass := Some(blank))))
            == IsRegisterEmailVerificationRequired(Some(c.(pass := None)))
  {
    TrimEmptyIff(blank);
    TrimEmptyIff("");
  }

  lemma PlaceholderTrimmed(h: string)
    requires h == PlaceholderHost
    ensures Trim(h) == h
  {
    assert h[0] == 's' && h[|h| - 1] == 'm';
    TrimNoop(h);
  }

  lemma PlaceholderLowered(h: string)
    requires h == PlaceholderHost
    ensures ToLower(h) == h
  {
    assert forall i :: 0 <= i < |h| ==> !('A' <= h[i] <= 'Z');
    LowerNoUpper(h);
  }

  /** The placeholder itself is recognised. */
  lemma PlaceholderRecognised(h: string)
    requires h == PlaceholderHost
    ensures IsPlaceholderSmtpHost(Some(h))
  {
    PlaceholderTrimmed(h);
    PlaceholderLowered(h);
  }

  /**
   * The shipped placeholder host in any case and with any white space
   * around it switches verification off, whatever the credentials.
   */
  lemma PlaceholderInAnyForm(before: string, s: string, after: string, user: Option<string>, pass: Option<string>)
    requires ToLower(s) == PlaceholderHost
    requires forall i :: 0 <= i < |before| ==> IsSpace(before[i])
    requires forall i :: 0 <= i < |after| ==> IsSpace(after[i])
    ensures !IsRegisterEmailVerificationRequired(Some(SmtpSettings(Some(before + s + after), user, pass)))
  {
    LowerKeepsSpace(s[0]);
    LowerKeepsSpace(s[|s| - 1]);
    PlaceholderIgnoresSpace(before, s, after);
    PlaceholderIgnoresCase(s);
    PlaceholderRecognised(ToLower(s));
    RequiredIff(Some(SmtpSettings(Some(before + s + after), user, pass)));
  }
}

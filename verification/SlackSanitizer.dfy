/**
  The response sanitizer of internal/chromectl/slack.go: the decoder with the real string functions.
  `redactURL` is the URL redaction of the browsersession package, which may return any text.
 */
module SlackSanitizer {
  import opened Common
  import opened TextOps
  import opened SlackPatterns
  import opened SlackRedaction
  import opened SlackDecode

  // ---- Strings ----

  /** Lower-casing as far as an ASCII comparison can see it: U+212A and U+0130 become k and i. */
  function LowerChar(c: char): char {
    if 'A' <= c <= 'Z' then (c as int + 32) as char
    else if c == '\U{212A}' then 'k'
    else if c == '\U{0130}' then 'i'
    else c
  }

  function Lower(s: string): string {
    seq(|s|, i requires 0 <= i < |s| => LowerChar(s[i]))
  }

  function Compact(s: string): string {
    if s == "" then ""
    else (if s[0] in "_-. " then "" else [s[0]]) + Compact(s[1..])
  }

  predicate HasSuffix(s: string, suffix: string) {
    |suffix| <= |s| && s[|s| - |suffix|..] == suffix
  }

  predicate Contains(s: string, part: string) {
    exists i | 0 <= i <= |s| :: part <= s[i..]
  }

  const SECRET_NAMES := {
    "apikey", "authorization", "clientsecret", "cookie", "cookies", "credential", "credentials",
    "password", "passwd", "privatekey", "session", "sessionid"}

  predicate IsSecretKey(key: string) {
    var compact := Compact(Lower(TrimSpace(key)));
    compact in SECRET_NAMES || HasSuffix(compact, "token") || HasSuffix(compact, "secret")
      || Contains(compact, "cookie")
  }

  function UrlStep(value: string, redactURL: string -> string): string {
    var trimmed := TrimSpace(value);
    if "https://" <= Lower(trimmed) || "http://" <= Lower(trimmed) then
      TrimLeftIsSuffix(value);
      TrimRightIsPrefix(TrimLeft(value));
      var start := |value| - |TrimLeft(value)|;
      value[..start] + redactURL(trimmed) + value[start + |trimmed|..]
    else value
  }

  function SanitizeText(value: string, redactURL: string -> string): string {
    Redacted(UrlStep(value, redactURL))
  }

  /** Whatever the URL step returns, sanitized text holds no token shape. */
  lemma SanitizedTextHoldsNoToken(value: string, redactURL: string -> string)
    ensures !HoldsToken(SanitizeText(value, redactURL))
  {
    RedactedHoldsNoToken(UrlStep(value, redactURL));
  }

  lemma MarkerHoldsNoToken()
    ensures !HoldsToken(MARKER)
  {
    if HoldsToken(MARKER) {
      var p, i, j :| TokenAt(p, MARKER, i, j);
      TokenIsPlain(p, MARKER[i..j]);
    }
  }

  function ResponseFilter(redactURL: string -> string): Filter {
    Filter(s => SanitizeText(s, redactURL), IsSecretKey, MARKER)
  }

  ghost predicate TokenFree(c: Clean) {
    AllText(c, s => !HoldsToken(s))
  }

  /** The whole response: accepted exactly when it is well formed, free of name collisions and within
      the depth and size bounds; then mirrored member by member with secrets marked, and free of
      token shapes in every string and name. */
  method SanitizeResponse(v: Json, redactURL: string -> string) returns (r: Result<Clean, Refusal>)
    ensures r.Ok? <==> Acceptable(v, 0, 0, ResponseFilter(redactURL))
    ensures r.Ok? ==> Mirrors(v, r.value, ResponseFilter(redactURL)) && TokenFree(r.value)
    ensures r.Err? ==> Justified(v, 0, 0, ResponseFilter(redactURL), r.error)
  {
    var nodes;
    r, nodes := Decode(v, 0, 0, ResponseFilter(redactURL));
    if r.Ok? {
      MirrorIsTokenFree(v, r.value, redactURL);
    }
  }

  /** No string and no member name of an accepted response holds a token shape. */
  lemma MirrorIsTokenFree(v: Json, c: Clean, redactURL: string -> string)
    requires Mirrors(v, c, ResponseFilter(redactURL))
    ensures TokenFree(c)
  {
    var f := ResponseFilter(redactURL);
    var ok := s => !HoldsToken(s);
    MarkerHoldsNoToken();
    forall s ensures ok(f.clean(s)) {
      SanitizedTextHoldsNoToken(s, redactURL);
    }
    MirrorIsAllText(v, c, f, ok);
  }
}

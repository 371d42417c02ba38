/**
 * The activation e-mail body (src/templates.rs): a fixed text, then the
 * activation link ending in the token, then a fixed closing text.
 */
module Templates {
  import opened Prelude

  /** The text before the link, starting with the template's leading newline. */
  const Greeting: string :=
    "\nLYnLab 계정 등록을 위한 인증 이메일입니다.\n\n아래의 링크를 눌러 인증 절차를 진행해주세요.\n만약 링크가 눌러지지 않는다면, 브라우저의 주소창에 복사하여 진행해주세요.\n\n"

  /** The activation link; the token is appended to it. */
  const ActivationUrl: string := "https://accounts.lynlab.co.kr/activate/"

  /** The text after the token, ending with the template's trailing indentation. */
  const Closing: string := "\n\n만약 본인이 가입한 것이 아니라면 이 메일을 무시하셔도 됩니다.\n    "

  /** Everything the body holds before the token. */
  const Head: string := Greeting + ActivationUrl

  /**
   * `email_body_activation`: the template with the token substituted. The body
   * is the fixed head, then the token, then the fixed closing, so it is a
   * constant longer than the token, and the activation URL in it is
   * immediately followed by the token.
   */
  function EmailBodyActivation(activationToken: string): (body: string)
    ensures |body| == |activationToken| + |Head| + |Closing|
    ensures body[..|Head|] == Head
    ensures body[|Head|..|Head| + |activationToken|] == activationToken
    ensures body[|Head| + |activationToken|..] == Closing
    ensures body[|Greeting|..|Greeting| + |ActivationUrl| + |activationToken|] == ActivationUrl + activationToken
  {
    Greeting + ActivationUrl + activationToken + Closing
  }

  /**
   * Recovers the token from a body by stripping the fixed head and closing:
   * a recovered token is one whose body this is, and no token is recovered
   * from a text that no token's body equals.
   */
  function ActivationTokenOf(body: string): (t: Option<string>)
    ensures t.Some? ==> body == EmailBodyActivation(t.value)
    ensures t.None? ==> forall tok :: body != EmailBodyActivation(tok)
  {
    if |body| >= |Head| + |Closing| && body[..|Head|] == Head && body[|body| - |Closing|..] == Closing
    then
      assert body == body[..|Head|] + body[|Head|..|body| - |Closing|] + body[|body| - |Closing|..];
      Some(body[|Head|..|body| - |Closing|])
    else None
  }

  /** Round trip: the token is recovered from the body built for it. */
  lemma ActivationTokenRoundTrip(t: string)
    ensures ActivationTokenOf(EmailBodyActivation(t)) == Some(t)
  {
  }

  /** Distinct tokens give distinct bodies. */
  lemma EmailBodyInjective(t1: string, t2: string)
    requires EmailBodyActivation(t1) == EmailBodyActivation(t2)
    ensures t1 == t2
  {
    ActivationTokenRoundTrip(t1);
    ActivationTokenRoundTrip(t2);
  }
}

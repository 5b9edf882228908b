/** The configuration constants of the userscript, under their own names. */
module Config {

  const DEBUG := true

  // gcp.giftee.biz
  const GCP_GUARD_PREFIX := "tm_autoclick_gcp:"
  const GCP_RESULT_GUARD_PREFIX := "tm_autoclick_gcp_result:"
  const GCP_RESULT_DELAY_MS: nat := 1000
  const GCP_JOIN_KEY_PREFIX := "tm_autoclick_gcp_join:"
  const GCP_JOIN_DELAY_MS: nat := 1000
  const GCP_JOIN_RETRY_COOLDOWN_MS: nat := 7000
  const GCP_JOIN_MAX_CLICKS_PER_PAGE := 5
  /** The floor the cooldown is raised to while a wait message is shown. */
  const GCP_JOIN_WAIT_COOLDOWN_MS: nat := 10000
  /** The slack added to the remaining cooldown when a retry is scheduled. */
  const GCP_JOIN_RETRY_SLACK_MS: nat := 50

  // x.com OAuth
  const X_FIXED_DELAY_MS: nat := 1000
  const X_GUARD_PREFIX := "tm_autoclick_xoauth:"

  const OBSERVER_TIMEOUT_MS: nat := 60000
  const MAX_ATTEMPTS_PER_PAGE := 3

  const X_TEXT_MATCHERS: seq<string> := ["アプリにアクセスを許可", "Authorize app", "Allow", "許可", "Authorize"]

  // What each phase's lookup matches.
  const GCP_JOIN_TEXT := "参加する"
  const GCP_JOIN_HREF := "/authentications/auth/"
  const GCP_RESULT_TEXT := "結果をみる"
  const GCP_RESULT_HREF := "/entry/lottery/result"

  // The two advisories of the join page that ask the user to wait.
  const GCP_JOIN_NOT_MET := "参加条件の達成が確認できませんでした"
  const GCP_JOIN_WAIT_10S := "10秒ほどお待ちいただいてから参加ボタンを押してください"

  // Hosts and the OAuth path `main` routes on.
  const GCP_HOST := "gcp.giftee.biz"
  const X_HOST := "x.com"
  const X_OAUTH_PATH := "/i/oauth2/authorize"
  const X_OAUTH_PARAM := "client_id"
}

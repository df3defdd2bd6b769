/** The configuration the core reads, fixed at the defaults of src/config/index.js. */
module Config {

  /** Lifetime of an access token, in minutes. */
  const AccessExpirationMinutes: nat := 15

  /** Lifetime of a refresh token, in days. */
  const RefreshExpirationDays: nat := 7

  /** Number of digits in a password-reset code. */
  const OtpLength: nat := 6

  /** Lifetime of a password-reset code, in minutes. */
  const OtpExpirationMinutes: nat := 10

  /** The application name placed in outgoing mail subjects. */
  const AppClientName: string := "Your App"

  /** The environment name used when NODE_ENV is unset or empty. */
  const DefaultEnv: string := "development"

  const MillisPerMinute: nat := 60 * 1000
}

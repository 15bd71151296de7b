/** A one-time password sent to an email address, with its expiry time in
    milliseconds since the epoch. */
module EmailOtpSchema {
  datatype OtpRecord = OtpRecord(email: string, otp: string, expiresAt: int)
}

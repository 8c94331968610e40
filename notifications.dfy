/** The texts the component writes into its error slot and its snackbar. */
module Notifications {

  /** The snackbar's state: a message and an alert severity. The empty
      message closes the snackbar. */
  datatype Notification = Notification(message: string, severity: string)

  const NoNotification: Notification := Notification("", "")
  const SuccessSeverity: string := "success"
  const ErrorSeverity: string := "error"

  const CapacityMessage: string := "You can only upload up to 5 images."
  const FormatMessage: string := "Only JPG and PNG files under 500KB are allowed."
  const DeletedMessage: string := "Image deleted successfully."
  const UploadedSuffix: string := " images uploaded successfully."

  predicate IsDigit(c: char) {
    '0' <= c <= '9'
  }

  predicate AllDigits(s: string) {
    forall k :: 0 <= k < |s| ==> IsDigit(s[k])
  }

  function DigitChar(d: nat): (c: char)
    requires d < 10
    ensures IsDigit(c) && (c as int) - ('0' as int) == d
  {
    "0123456789"[d]
  }

  /** A template literal's rendering of a non-negative integer: its decimal
      digits, most significant first, with no leading zero. */
  function Decimal(n: nat): (s: string)
    ensures |s| >= 1 && AllDigits(s)
    ensures |s| > 1 ==> s[0] != '0'
    decreases n
  {
    if n < 10 then [DigitChar(n)] else Decimal(n / 10) + [DigitChar(n % 10)]
  }

  /** The number a string of decimal digits denotes. */
  function DecimalValue(s: string): (v: nat)
    requires AllDigits(s)
    decreases |s|
  {
    if s == [] then 0
    else DecimalValue(s[..|s| - 1]) * 10 + ((s[|s| - 1] as int) - ('0' as int))
  }

  /** Reading the rendered count back yields the count. */
  lemma {:induction false} DecimalRoundTrip(n: nat)
    ensures DecimalValue(Decimal(n)) == n
    decreases n
  {
    if n >= 10 {
      DecimalRoundTrip(n / 10);
      var s := Decimal(n);
      assert s[..|s| - 1] == Decimal(n / 10);
    }
  }

  /** The success text of an admission: `${n} images uploaded successfully.` */
  function UploadedMessage(n: nat): (m: string) {
    Decimal(n) + UploadedSuffix
  }

  /** The success text determines the count it reports. */
  lemma UploadedMessageInjective(a: nat, b: nat)
    ensures UploadedMessage(a) == UploadedMessage(b) ==> a == b
  {
    if UploadedMessage(a) == UploadedMessage(b) {
      var m := UploadedMessage(a);
      assert |Decimal(a)| == |Decimal(b)|;
      assert Decimal(a) == m[..|Decimal(a)|] == Decimal(b);
      DecimalRoundTrip(a);
      DecimalRoundTrip(b);
    }
  }

  /** The success text starts with the count's leading digit; in particular
      it is never empty, so it always opens the snackbar, even for a count
      of zero. */
  lemma UploadedMessageNonEmpty(n: nat)
    ensures UploadedMessage(n) != [] && IsDigit(UploadedMessage(n)[0])
  {
  }
}

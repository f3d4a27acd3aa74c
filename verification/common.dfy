/** Shared vocabulary of the device plugin model: optional values, results
    that carry the plugin's fatal errors instead of a panic, and two small
    sequence predicates. */
module Common {

  datatype Option<+T> = None | Some(value: T)

  /** The plugin's fatal conditions. In the program each of them is a panic
      that ends the process; here each is a value the caller can inspect. */
  datatype FatalError =
    | UnparsableSetting(setting: string)             // strconv.Atoi rejected the setting
    | FactorBelowOne(value: int)                     // the setting parsed but is < 1
    | RegistrationFailed(device: string, message: string) // health-event registration failed

  datatype Result<+T> = Ok(value: T) | Fatal(error: FatalError)

  /** `suffix` is a suffix of `s` (Go's strings.HasSuffix). */
  predicate HasSuffix(s: string, suffix: string)
  {
    |suffix| <= |s| && s[|s| - |suffix|..] == suffix
  }

  /** No element occurs twice. */
  predicate Distinct<T(==)>(s: seq<T>)
  {
    forall i, j :: 0 <= i < j < |s| ==> s[i] != s[j]
  }
}

/** How the prefill reconciler and the form validators fit together. */
module PrefillValidation {
  import opened Wrappers
  import Validators
  import Prefill

  /** A smoking answer taken over from a prefill payload always satisfies the smoking
      validator. */
  lemma PrefilledSmokePasses(t: Validators.Translate, smokes: Option<bool>, smoke: Option<string>)
    requires Prefill.SmokeValue(smokes, smoke).Some?
    ensures Validators.SmokeAnswer(t, Prefill.SmokeValue(smokes, smoke).value) == None
  {
  }
}

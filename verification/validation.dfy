/** The credential checks shared by the sign-in page and the password-reset page. Each
    zod schema becomes a `Check`: whether the value passes and the message shown when it
    does not. Parsing several schemas in a row inside one `try` reports only the first
    failing one. */
module Validation {
  import opened Wrappers

  const InvalidEmail := "Please enter a valid email"
  const ShortPassword := "Password must be at least 6 characters"
  const ShortName := "Name must be at least 2 characters"

  const MinPasswordLength := 6
  const MinNameLength := 2

  datatype Check = Check(passes: bool, message: string)

  predicate AllPass(checks: seq<Check>) {
    forall i :: 0 <= i < |checks| ==> checks[i].passes
  }

  /** Check `i` is the first one that fails. */
  predicate FailsFirstAt(checks: seq<Check>, i: int) {
    0 <= i < |checks| && !checks[i].passes && AllPass(checks[..i])
  }

  /** The message of the first check that fails, or `None` when all pass. */
  function FirstFailure(checks: seq<Check>): (r: Option<string>)
    ensures r.None? <==> AllPass(checks)
    ensures r.Some? ==> exists i :: FailsFirstAt(checks, i) && checks[i].message == r.value
  {
    if checks == [] then None
    else if !checks[0].passes then
      assert FailsFirstAt(checks, 0);
      Some(checks[0].message)
    else
      var rest := FirstFailure(checks[1..]);
      assert rest.None? ==> AllPass(checks) by {
        if rest.None? {
          forall i | 0 <= i < |checks| ensures checks[i].passes {
            if i > 0 { assert checks[i] == checks[1..][i - 1]; }
          }
        }
      }
      assert rest.Some? ==> exists i :: FailsFirstAt(checks, i) && checks[i].message == rest.value by {
        if rest.Some? {
          var j :| FailsFirstAt(checks[1..], j) && checks[1..][j].message == rest.value;
          assert checks[..j + 1] == [checks[0]] + checks[1..][..j];
          assert checks[j + 1] == checks[1..][j];
          assert FailsFirstAt(checks, j + 1);
        }
      }
      rest
  }

  /** Checks run left to right: once a prefix fails, later checks are never consulted;
      when it passes, the remaining checks decide. */
  lemma {:induction false} FirstFailureAppend(a: seq<Check>, b: seq<Check>)
    ensures FirstFailure(a).Some? ==> FirstFailure(a + b) == FirstFailure(a)
    ensures FirstFailure(a).None? ==> FirstFailure(a + b) == FirstFailure(b)
  {
    if a != [] {
      assert (a + b)[0] == a[0];
      assert (a + b)[1..] == a[1..] + b;
      FirstFailureAppend(a[1..], b);
    } else {
      assert a + b == b;
    }
  }

  /** `z.string().email(...)`; whether an address is well formed is zod's decision and is
      passed in. */
  function EmailCheck(email: string, validEmail: string -> bool): (c: Check)
    ensures c.passes == validEmail(email) && c.message == InvalidEmail
  {
    Check(validEmail(email), InvalidEmail)
  }

  /** `z.string().min(6, ...)`: at least six characters, counted before any trimming. */
  function PasswordCheck(password: string): (c: Check)
    ensures c.passes <==> |password| >= MinPasswordLength
    ensures c.message == ShortPassword
  {
    Check(|password| >= MinPasswordLength, ShortPassword)
  }

  /** `z.string().min(2, ...)`: at least two characters. */
  function NameCheck(name: string): (c: Check)
    ensures c.passes <==> |name| >= MinNameLength
    ensures c.message == ShortName
  {
    Check(|name| >= MinNameLength, ShortName)
  }

  /** The notice for a refused form: "Validation Error" with the first failing message. */
  function ValidationError(message: string): (t: Toast)
    ensures t.title == "Validation Error" && t.description == Some(message) && t.destructive
  {
    Toast("Validation Error", Some(message), true)
  }
}

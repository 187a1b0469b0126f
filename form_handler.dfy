/**
 * `FormHandler.getFormData` of js/form-handler.js, lifted off the DOM: the
 * form's inputs are a sequence of (id, value) pairs, and each value is
 * stored under a key derived from its input's id.
 */
module FormHandler {
  import opened Js
  import opened FormValidator

  /** An `<input>` element: its `id` and its current `value`. */
  datatype Input = Input(id: string, value: string)

  /**
   * The key `getFormData` stores an input under: the id with its first
   * `login` removed, then its first `signup` removed, then lower-cased.
   */
  function FieldKey(id: string): (key: string)
    ensures forall k :: 0 <= k < |key| ==> !('A' <= key[k] <= 'Z')
  {
    ToLowerCase(RemoveFirst(RemoveFirst(id, "login"), "signup"))
  }

  /** No later input has the same key as input `i`: input `i` is the last writer of its key. */
  predicate LastWithKey(inputs: seq<Input>, keyOf: string -> string, i: int)
  {
    0 <= i < |inputs| &&
    forall j :: i < j < |inputs| ==> keyOf(inputs[j].id) != keyOf(inputs[i].id)
  }

  /**
   * The one key an assignment to a plain object does not store: `__proto__`
   * reaches the setter inherited from `Object.prototype`, which ignores a
   * string value, so the record is left as it was.
   */
  const ProtoKey := "__proto__"

  /** `record[key] = value` on a plain object, for a string value. */
  function Assign(record: map<string, string>, key: string, value: string): map<string, string>
  {
    if key == ProtoKey then record else record[key := value]
  }

  /** The record built by assigning each input's value to its key, in document order. */
  function CollectBy(inputs: seq<Input>, keyOf: string -> string): (r: map<string, string>)
    ensures ProtoKey !in r
    ensures |r.Keys| <= |inputs|
  {
    if inputs == [] then map[]
    else Assign(CollectBy(inputs[..|inputs| - 1], keyOf), keyOf(inputs[|inputs| - 1].id), inputs[|inputs| - 1].value)
  }

  /** The record has a key for every input, except `__proto__`, and no other. */
  lemma {:induction false} CollectedKeys(inputs: seq<Input>, keyOf: string -> string)
    ensures forall key :: key in CollectBy(inputs, keyOf) <==>
      key != ProtoKey && exists i :: 0 <= i < |inputs| && keyOf(inputs[i].id) == key
  {
    if inputs != [] {
      var init := inputs[..|inputs| - 1];
      CollectedKeys(init, keyOf);
      assert forall i :: 0 <= i < |init| ==> init[i] == inputs[i];
    }
  }

  /** Each key other than `__proto__` holds the value of the last input with that key. */
  lemma {:induction false} CollectedValues(inputs: seq<Input>, keyOf: string -> string)
    ensures forall i :: LastWithKey(inputs, keyOf, i) && keyOf(inputs[i].id) != ProtoKey ==>
      keyOf(inputs[i].id) in CollectBy(inputs, keyOf) &&
      CollectBy(inputs, keyOf)[keyOf(inputs[i].id)] == inputs[i].value
  {
    if inputs != [] {
      var init := inputs[..|inputs| - 1];
      CollectedValues(init, keyOf);
      var last := inputs[|inputs| - 1];
      assert CollectBy(inputs, keyOf) == Assign(CollectBy(init, keyOf), keyOf(last.id), last.value);
      forall i | LastWithKey(inputs, keyOf, i) && i < |init|
        ensures LastWithKey(init, keyOf, i) && keyOf(inputs[i].id) != keyOf(last.id)
      {
        assert forall j :: i < j < |init| ==> init[j] == inputs[j];
      }
    }
  }

  /** Collecting one more input assigns its value to its key. */
  lemma CollectNext(inputs: seq<Input>, keyOf: string -> string, i: nat)
    requires i < |inputs|
    ensures CollectBy(inputs[..i + 1], keyOf) == Assign(CollectBy(inputs[..i], keyOf), keyOf(inputs[i].id), inputs[i].value)
  {
    assert inputs[..i + 1][..i] == inputs[..i];
  }

  /** `getFormData`: one assignment per input, in the order of the inputs. */
  method GetFormData(inputs: seq<Input>) returns (formData: map<string, string>)
    ensures formData == CollectBy(inputs, FieldKey)
  {
    formData := map[];
    var i := 0;
    while i < |inputs|
      invariant 0 <= i <= |inputs|
      invariant formData == CollectBy(inputs[..i], FieldKey)
    {
      CollectNext(inputs, FieldKey, i);
      var key := FieldKey(inputs[i].id);
      if key != ProtoKey {
        formData := formData[key := inputs[i].value];
      }
      i := i + 1;
    }
    assert inputs[..i] == inputs;
  }

  /**
   * Two values are collected under one key only when the later one wins;
   * under `__proto__` neither is collected.
   */
  lemma LaterInputWins(inputs: seq<Input>, keyOf: string -> string, i: nat, j: nat)
    requires i < j < |inputs| && keyOf(inputs[i].id) == keyOf(inputs[j].id)
    requires LastWithKey(inputs, keyOf, j)
    ensures keyOf(inputs[i].id) in CollectBy(inputs, keyOf) <==> keyOf(inputs[i].id) != ProtoKey
    ensures keyOf(inputs[i].id) != ProtoKey ==> CollectBy(inputs, keyOf)[keyOf(inputs[i].id)] == inputs[j].value
  {
    CollectedValues(inputs, keyOf);
  }

  // ---------------------------------------------------------------------------
  // Keys of the page's inputs
  // ---------------------------------------------------------------------------

  /** A pattern whose first two characters never appear side by side in `s` does not occur in `s`. */
  lemma NotFound(s: string, p: string)
    requires |p| >= 2
    requires forall k :: 0 <= k < |s| - 1 ==> s[k] != p[0] || s[k + 1] != p[1]
    ensures IndexOf(s, p) == -1 && RemoveFirst(s, p) == s
  {
    var r := IndexOfFrom(s, p, 0);
    if r != -1 {
      OccursAtHead(s, p, r);
      assert false;
    }
  }

  lemma OccursAtHead(s: string, p: string, i: int)
    requires |p| >= 2 && OccursAt(s, p, i)
    ensures i + 1 < |s| && s[i] == p[0] && s[i + 1] == p[1]
  {
    assert s[i..i + |p|][0] == p[0] && s[i..i + |p|][1] == p[1];
  }

  /** Replacing a prefix removes it. */
  lemma FoundAtStart(s: string, p: string)
    requires |p| <= |s| && s[..|p|] == p
    ensures IndexOf(s, p) == 0 && RemoveFirst(s, p) == s[|p|..]
  {
    var r := RemoveFirst(s, p);
    assert s == p + r;
    assert s[|p|..] == r;
  }

  /** An id that starts with `signup` and holds no `lo` loses exactly that prefix. */
  lemma SignupStripped(id: string)
    requires |id| >= 6 && id[..6] == "signup"
    requires forall k :: 0 <= k < |id| - 1 ==> id[k] != 'l' || id[k + 1] != 'o'
    ensures RemoveFirst(RemoveFirst(id, "login"), "signup") == id[6..]
  {
    NotFound(id, "login");
    FoundAtStart(id, "signup");
  }

  /** `ConfirmPassword` lower-cased. */
  lemma LowerConfirm(s: string)
    requires s == "ConfirmPassword"
    ensures ToLowerCase(s) == "confirmpassword"
  {
    var r := ToLowerCase(s);
    assert r[0] == 'c' && r[7] == 'p';
    assert forall k :: 0 <= k < |s| && k != 0 && k != 7 ==> r[k] == s[k];
  }

  /** `ConfirmPassword` with its first letter lower-cased. */
  lemma LowerFirstConfirm(s: string)
    requires s == "ConfirmPassword"
    ensures LowerFirst(s) == "confirmPassword"
  {
  }

  lemma LowerPassword(s: string)
    requires s == "Password"
    ensures ToLowerCase(s) == "password"
  {
  }

  lemma LowerFirstPassword(s: string)
    requires s == "Password"
    ensures LowerFirst(s) == "password"
  {
  }

  lemma LowerFirstEmail(s: string)
    requires s == "Email"
    ensures LowerFirst(s) == "email"
  {
  }

  lemma LowerEmail(s: string)
    requires s == "Email"
    ensures ToLowerCase(s) == "email"
  {
  }

  /** `signupConfirmPassword` loses its `signup` prefix and nothing else. */
  lemma ConfirmStripped(id: string)
    requires id == "signupConfirmPassword"
    ensures RemoveFirst(RemoveFirst(id, "login"), "signup") == "ConfirmPassword"
  {
    SignupStripped(id);
    assert id[6..] == "ConfirmPassword";
  }

  /** `signupConfirmPassword` is stored under `confirmpassword`. */
  lemma ConfirmKey(id: string)
    requires id == "signupConfirmPassword"
    ensures FieldKey(id) == "confirmpassword"
  {
    ConfirmStripped(id);
    LowerConfirm("ConfirmPassword");
  }

  /** With the intended derivation, `signupConfirmPassword` is stored under `confirmPassword`. */
  lemma IntendedConfirmKey(id: string)
    requires id == "signupConfirmPassword"
    ensures IntendedFieldKey(id) == "confirmPassword"
  {
    ConfirmStripped(id);
    LowerFirstConfirm("ConfirmPassword");
  }

  /** `signupPassword` is stored under `password`, with either derivation. */
  lemma SignupPasswordKey(id: string)
    requires id == "signupPassword"
    ensures FieldKey(id) == "password"
    ensures IntendedFieldKey(id) == "password"
  {
    assert RemoveFirst(RemoveFirst(id, "login"), "signup") == "Password" by {
      SignupStripped(id);
      assert id[6..] == "Password";
    }
    LowerPassword("Password");
    LowerFirstPassword("Password");
  }

  /** `loginEmail` loses its `login` prefix and nothing else. */
  lemma EmailStripped(id: string)
    requires id == "loginEmail"
    ensures RemoveFirst(RemoveFirst(id, "login"), "signup") == "Email"
  {
    FoundAtStart(id, "login");
    assert id[5..] == "Email";
    NotFound("Email", "signup");
  }

  /** `loginEmail` is stored under `email`. */
  lemma LoginEmailKey(id: string)
    requires id == "loginEmail"
    ensures FieldKey(id) == "email"
    ensures IntendedFieldKey(id) == "email"
  {
    EmailStripped(id);
    LowerEmail("Email");
    LowerFirstEmail("Email");
  }

  // ---------------------------------------------------------------------------
  // The confirmation key
  // ---------------------------------------------------------------------------

  /**
   * Keys are lower-cased, so `getFormData` never produces the
   * `confirmPassword` key that `validateForm` reads.
   */
  lemma ConfirmPasswordNeverCollected(inputs: seq<Input>)
    ensures "confirmPassword" !in CollectBy(inputs, FieldKey)
  {
    var key := "confirmPassword";
    assert 'A' <= key[7] <= 'Z';
    UpperKeyNeverCollected(inputs, key, 7);
  }

  /** A key with an upper-case letter is never collected: every derived key is lower-case. */
  lemma UpperKeyNeverCollected(inputs: seq<Input>, key: string, k: nat)
    requires k < |key| && 'A' <= key[k] <= 'Z'
    ensures key !in CollectBy(inputs, FieldKey)
  {
    CollectedKeys(inputs, FieldKey);
  }

  /**
   * So a signup form's collected data, given to `validateForm`, always fails
   * the mismatch check once it has a password: the typed confirmation is
   * never compared.
   */
  lemma CollectedSignupAlwaysMismatches(inputs: seq<Input>)
    requires "password" in CollectBy(inputs, FieldKey)
    ensures Fails(CollectBy(inputs, FieldKey), "signup", MatchCheck)
    ensures var e := FormErrors(CollectBy(inputs, FieldKey), "signup");
      e.Throw? || MismatchMessage in e.value
  {
    var formData := CollectBy(inputs, FieldKey);
    ConfirmPasswordNeverCollected(inputs);
    assert Field(formData, "confirmPassword") == None;
    if "name" in formData {
      MismatchReportedOnce(formData, "signup");
    }
  }

  /** For instance: the signup password and its confirmation agree, and the form still mismatches. */
  lemma MatchingSignupPasswordsMismatch(passwordId: string, confirmId: string, password: string)
    requires passwordId == "signupPassword" && confirmId == "signupConfirmPassword"
    ensures Fails(CollectBy([Input(passwordId, password), Input(confirmId, password)], FieldKey), "signup", MatchCheck)
  {
    var inputs := [Input(passwordId, password), Input(confirmId, password)];
    assert "password" in CollectBy(inputs, FieldKey) by {
      SignupPasswordKey(passwordId);
      CollectedKeys(inputs, FieldKey);
      assert FieldKey(inputs[0].id) == "password";
    }
    CollectedSignupAlwaysMismatches(inputs);
  }

  /** The first character lower-cased, the rest kept: `ConfirmPassword` becomes `confirmPassword`. */
  function LowerFirst(s: string): (r: string)
    ensures |r| == |s|
    ensures s != [] ==> r[0] == LowerAscii(s[0]) && r[1..] == s[1..]
  {
    if s == [] then [] else [LowerAscii(s[0])] + s[1..]
  }

  /**
   * The key the form evidently means: the prefix removed and only the first
   * letter lower-cased, which turns the input ids into the camel-case keys
   * `validateForm` reads.
   */
  function IntendedFieldKey(id: string): (key: string)
    ensures key != [] ==> !('A' <= key[0] <= 'Z')
  {
    LowerFirst(RemoveFirst(RemoveFirst(id, "login"), "signup"))
  }

  /**
   * With the intended keys, the mismatch check compares the password the
   * user typed with the confirmation the user typed.
   */
  lemma IntendedMismatchCheck(inputs: seq<Input>, p: nat, c: nat)
    requires p < |inputs| && inputs[p].id == "signupPassword" && LastWithKey(inputs, IntendedFieldKey, p)
    requires c < |inputs| && inputs[c].id == "signupConfirmPassword" && LastWithKey(inputs, IntendedFieldKey, c)
    ensures Fails(CollectBy(inputs, IntendedFieldKey), "signup", MatchCheck) <==> inputs[p].value != inputs[c].value
  {
    SignupPasswordKey(inputs[p].id);
    IntendedConfirmKey(inputs[c].id);
    CollectedValues(inputs, IntendedFieldKey);
  }
}

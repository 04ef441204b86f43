/**
  `Register.js`: the registration form. Each input's change handler
  validates it and sets or clears its own error message; submitting posts
  the credentials when either field is currently valid, shows the server's
  message and moves on to the login page unless the server reports an error.
 */
module Register {
  import opened Common

  const RegisterUrl := ApiUrl + "/user/register"
  const LoginRedirect := "/Login?re=true"
  const EmailErrorMessage := "Invalid email (must be in the format example@email.abc)"
  const PasswordErrorMessage := "Invalid password (must be at least 6 characters long, and contain at least one number)"

  /** The characters a regular-expression `.` does not match. */
  predicate LineTerminator(c: char) {
    c == '\n' || c == '\r' || c == '\U{2028}' || c == '\U{2029}'
  }

  /** `/.+@.+[.].+/` matches with its '@' at `i` and its '.' at `j`: one
      non-terminator before the '@', a run of non-terminators between the
      two, and one non-terminator after the '.'. */
  predicate EmailAt(s: string, i: int, j: int) {
    0 < i && i + 1 < j && j + 1 < |s|
    && s[i] == '@' && s[j] == '.'
    && !LineTerminator(s[i - 1]) && !LineTerminator(s[j + 1])
    && forall k | i < k < j :: !LineTerminator(s[k])
  }

  /** `/.+@.+[.].+/.test(s)`: the pattern is not anchored, so it matches
      anywhere in the string. */
  predicate EmailValid(s: string)
    ensures EmailValid(s) ==> '@' in s && '.' in s && |s| >= 5
  {
    exists i, j | 0 <= i < |s| && 0 <= j < |s| :: EmailAt(s, i, j)
  }

  /** How many UTF-16 code units a character takes: two for a character
      beyond U+FFFF (a surrogate pair), one otherwise. */
  function CodeUnits(c: char): nat {
    if c as int >= 0x1_0000 then 2 else 1
  }

  /** JavaScript's `s.length`: the number of UTF-16 code units. */
  function Utf16Length(s: string): (n: nat)
    ensures |s| <= n <= 2 * |s|
    decreases |s|
  {
    if s == [] then 0 else Utf16Length(s[..|s| - 1]) + CodeUnits(s[|s| - 1])
  }

  /** Text made only of characters up to U+FFFF has one code unit per
      character. */
  lemma {:induction false} Utf16LengthBmp(s: string)
    requires forall k | 0 <= k < |s| :: s[k] as int < 0x1_0000
    ensures Utf16Length(s) == |s|
    decreases |s|
  {
    if s != [] {
      Utf16LengthBmp(s[..|s| - 1]);
    }
  }

  /** `value.length >= 6 && /[0-9]/.test(value)`. */
  predicate PasswordValid(s: string)
    ensures |s| >= 6 && (exists k | 0 <= k < |s| :: IsDigit(s[k])) ==> PasswordValid(s)
    ensures PasswordValid(s) ==> |s| >= 3
  {
    Utf16Length(s) >= 6 && exists k | 0 <= k < |s| :: IsDigit(s[k])
  }

  /** The rule on examples: six characters with a digit pass; five, or six
      without a digit, do not; and three emoji and a digit pass, because each
      emoji counts as two code units. */
  lemma PasswordExamples()
    ensures PasswordValid("abcde1")
    ensures !PasswordValid("abcd1")
    ensures !PasswordValid("abcdef")
    ensures PasswordValid("\U{1F600}\U{1F600}\U{1F600}1")
  {
    Utf16LengthBmp("abcde1");
    Utf16LengthBmp("abcd1");
    assert IsDigit("abcde1"[5]);
    var e := "\U{1F600}\U{1F600}\U{1F600}1";
    assert e[..1][..0] == [] && Utf16Length(e[..1]) == 2;
    assert e[..2][..1] == e[..1] && Utf16Length(e[..2]) == 4;
    assert e[..3][..2] == e[..2] && Utf16Length(e[..3]) == 6;
    assert e[..4][..3] == e[..3] && e[..4] == e;
    assert IsDigit(e[3]);
  }

  /** For input on one line, the email rule is: an '@' with at least one
      character before it, then a '.' with at least one character between
      the '@' and the '.', and at least one after the '.'. */
  lemma EmailValidOneLine(s: string)
    requires forall k | 0 <= k < |s| :: !LineTerminator(s[k])
    ensures EmailValid(s) <==>
              exists i, j | 0 < i && i + 1 < j && j + 1 < |s| :: s[i] == '@' && s[j] == '.'
  {
    if exists i, j | 0 < i && i + 1 < j && j + 1 < |s| :: s[i] == '@' && s[j] == '.' {
      var i, j :| 0 < i && i + 1 < j && j + 1 < |s| && s[i] == '@' && s[j] == '.';
      assert EmailAt(s, i, j);
    }
  }

  /** The address the form's message gives as an example is accepted. */
  lemma ExampleEmailAccepted()
    ensures EmailValid("example@email.abc")
  {
    assert EmailAt("example@email.abc", 7, 13);
  }

  /** Nothing between the '@' and the '.', or nothing after the '.', is
      refused; so is a line break between the '@' and the '.'. */
  lemma MalformedEmailsRefused()
    ensures !EmailValid("a@.c")
    ensures !EmailValid("a@b.")
    ensures !EmailValid("a@\n.c")
  {
    var t := "a@\n.c";
    forall i, j | 0 <= i < |t| && 0 <= j < |t| ensures !EmailAt(t, i, j) {
      assert LineTerminator(t[2]);
      assert t[1] == '@' && t[3] == '.' && t[0] != '@' && t[2] != '@' && t[4] != '@';
    }
  }

  /** What the register endpoint answered: whether `error` is `true`, and
      the `message` field, if any. */
  datatype RegisterResponse = RegisterResponse(errorIsTrue: bool, message: Option<string>)

  /** The POST the form sends. */
  datatype Request = Request(url: string, email: string, password: string)

  /** The form's state. */
  class RegisterForm {
    var emailError: Option<string>
    var pwdError: Option<string>
    var regError: Option<string>
    /** URLs pushed onto the history, oldest first. */
    var history: seq<string>

    /** Both fields start out flagged as invalid. */
    constructor ()
      ensures emailError == Some(EmailErrorMessage) && pwdError == Some(PasswordErrorMessage)
      ensures regError == None && history == []
    {
      emailError := Some(EmailErrorMessage);
      pwdError := Some(PasswordErrorMessage);
      regError := None;
      history := [];
    }

    /** `emailChange`: only the email's error changes. */
    method EmailChange(value: string)
      modifies this`emailError
      ensures emailError.None? <==> EmailValid(value)
      ensures emailError.Some? ==> emailError.value == EmailErrorMessage
    {
      if EmailValid(value) {
        emailError := None;
      } else {
        emailError := Some(EmailErrorMessage);
      }
    }

    /** `passwordChange`: only the password's error changes. */
    method PasswordChange(value: string)
      modifies this`pwdError
      ensures pwdError.None? <==> PasswordValid(value)
      ensures pwdError.Some? ==> pwdError.value == PasswordErrorMessage
    {
      if Utf16Length(value) >= 6 && exists k | 0 <= k < |value| :: IsDigit(value[k]) {
        pwdError := None;
      } else {
        pwdError := Some(PasswordErrorMessage);
      }
    }

    /** `register`: the request is sent when either error is clear; the
        answer's message becomes `regError`, and the login page is opened
        unless the answer's `error` is `true`. Nothing happens otherwise. */
    method Register(email: string, password: string, response: RegisterResponse)
      returns (request: Option<Request>)
      modifies this`regError, this`history
      ensures request.Some? <==> old(emailError).None? || old(pwdError).None?
      ensures request.Some? ==>
                request.value == Request(RegisterUrl, email, password)
                && regError == response.message
                && history == old(history) + (if response.errorIsTrue then [] else [LoginRedirect])
      ensures request.None? ==> regError == old(regError) && history == old(history)
    {
      request := None;
      if emailError == None || pwdError == None {
        request := Some(Request(RegisterUrl, email, password));
        regError := response.message;
        if !response.errorIsTrue {
          history := history + [LoginRedirect];
        }
      }
    }
  }

  /** A fresh form, filled in and submitted. The email field is an
      `<input type="email">` in a form without `noValidate`, so the browser
      checks it first: `browserAccepts` is that check's verdict, and when it
      refuses, the submit never reaches `register`. When the submit does
      reach `register`, the request goes out exactly when the email or the
      password is valid, so one valid field is enough. */
  method SubmitFilledForm(email: string, password: string, browserAccepts: bool, response: RegisterResponse)
    returns (request: Option<Request>, redirected: bool)
    ensures request.Some? <==> browserAccepts && (EmailValid(email) || PasswordValid(password))
    ensures redirected <==> request.Some? && !response.errorIsTrue
  {
    var form := new RegisterForm();
    form.EmailChange(email);
    form.PasswordChange(password);
    if browserAccepts {
      request := form.Register(email, password, response);
    } else {
      request := None;
    }
    redirected := LoginRedirect in form.history;
  }
}

/** The contact form handler: the decision it takes over the four form
    fields (name, email, project, message) before it either shows an error
    or accepts the submission. Reading the fields from the page, the alert
    dialogs, the console log and the form reset are side effects and are
    not modelled; the decision is returned as an `Outcome`. */
module ContactForm {

  /** A form field as the handler reads it: `None` when the element is
      absent from the page (optional chaining yields `undefined`), otherwise
      the element's current text value. */
  datatype Option<T> = None | Some(value: T)

  /** The three ways the handler can end. */
  datatype Outcome =
    | MissingFields   // "Please fill in all required fields"
    | BadEmail        // "Please enter a valid email address"
    | Accepted        // the success message, then the form is reset

  /** A field passes the required-field test when it is truthy: neither
      `undefined` nor the empty string. */
  predicate Filled(field: Option<string>) {
    field.Some? && field.value != ""
  }

  /** The characters matched by the `\s` class of a JavaScript regular
      expression: the WhiteSpace and LineTerminator code points of the
      ECMAScript grammar (tab, vertical tab, form feed, zero-width no-break
      space, the Unicode space separators, line feed, carriage return, line
      separator and paragraph separator). */
  predicate IsWs(c: char) {
    || c == '\t' || c == '\n' || c == '\U{000B}' || c == '\U{000C}' || c == '\r'
    || c == ' ' || c == '\U{00A0}' || c == '\U{1680}'
    || ('\U{2000}' <= c <= '\U{200A}')
    || c == '\U{2028}' || c == '\U{2029}' || c == '\U{202F}' || c == '\U{205F}'
    || c == '\U{3000}' || c == '\U{FEFF}'
  }

  /** A character of the class `[^\s@]`. */
  predicate EmailChar(c: char) {
    !IsWs(c) && c != '@'
  }

  /** A string matched by `[^\s@]+`. */
  predicate Run(t: string) {
    |t| > 0 && forall k | 0 <= k < |t| :: EmailChar(t[k])
  }

  /** What the regular expression `^[^\s@]+@[^\s@]+\.[^\s@]+$` accepts,
      written as the regular expression reads: the whole string is a run,
      an `@`, a run, a literal `.` and a run. */
  ghost predicate MatchesEmailPattern(s: string) {
    exists local: string, host: string, tld: string
      | Run(local) && Run(host) && Run(tld) ::
      s == local + "@" + host + "." + tld
  }

  /** The email test as the handler applies it, stated position by position:
      no whitespace anywhere, a single `@` that is not the first character,
      and after it a `.` that is neither the character right after the `@`
      nor the last character. */
  predicate IsValidEmail(s: string) {
    exists at | 0 < at < |s| && s[at] == '@' ::
      && (forall k | 0 <= k < |s| :: !IsWs(s[k]) && (s[k] == '@' ==> k == at))
      && (exists dot | at + 1 < dot < |s| - 1 :: s[dot] == '.')
  }

  /** The position-by-position test accepts exactly the strings the regular
      expression matches. */
  lemma EmailTestIsPattern(s: string)
    ensures IsValidEmail(s) <==> MatchesEmailPattern(s)
  {
    if IsValidEmail(s) {
      var at :| 0 < at < |s| && s[at] == '@'
        && (forall k | 0 <= k < |s| :: !IsWs(s[k]) && (s[k] == '@' ==> k == at))
        && (exists dot | at + 1 < dot < |s| - 1 :: s[dot] == '.');
      var dot :| at + 1 < dot < |s| - 1 && s[dot] == '.';
      var local, host, tld := s[..at], s[at + 1..dot], s[dot + 1..];
      assert Run(local) by {
        forall k | 0 <= k < |local| ensures EmailChar(local[k]) {
          assert local[k] == s[k];
        }
      }
      assert Run(host) by {
        forall k | 0 <= k < |host| ensures EmailChar(host[k]) {
          assert host[k] == s[at + 1 + k];
        }
      }
      assert Run(tld) by {
        forall k | 0 <= k < |tld| ensures EmailChar(tld[k]) {
          assert tld[k] == s[dot + 1 + k];
        }
      }
      assert s == local + "@" + host + "." + tld;
    }
    if MatchesEmailPattern(s) {
      var local: string, host: string, tld: string :|
        Run(local) && Run(host) && Run(tld) && s == local + "@" + host + "." + tld;
      var at, dot := |local|, |local| + 1 + |host|;
      assert s[at] == '@' && s[dot] == '.';
      forall k | 0 <= k < |s| ensures !IsWs(s[k]) && (s[k] == '@' ==> k == at) {
        if k < at {
          assert s[k] == local[k];
        } else if at < k < dot {
          assert s[k] == host[k - at - 1];
        } else if dot < k {
          assert s[k] == tld[k - dot - 1];
        }
      }
      assert IsValidEmail(s);
    }
  }

  /** An address the handler accepts holds exactly one `@`. */
  lemma ValidEmailHasOneAt(s: string)
    requires IsValidEmail(s)
    ensures multiset(s)['@'] == 1
  {
    var at :| 0 < at < |s| && s[at] == '@'
      && (forall k | 0 <= k < |s| :: !IsWs(s[k]) && (s[k] == '@' ==> k == at))
      && (exists dot | at + 1 < dot < |s| - 1 :: s[dot] == '.');
    var before, after := s[..at], s[at + 1..];
    assert s == before + [s[at]] + after;
    assert '@' !in before by {
      forall k | 0 <= k < |before| ensures before[k] != '@' {
        assert before[k] == s[k];
      }
    }
    assert '@' !in after by {
      forall k | 0 <= k < |after| ensures after[k] != '@' {
        assert after[k] == s[at + 1 + k];
      }
    }
    calc {
      multiset(s)['@'];
      (multiset(before) + multiset([s[at]]) + multiset(after))['@'];
      multiset(before)['@'] + 1 + multiset(after)['@'];
      1;
    }
  }

  /** The handler's decision: the required fields first, then the email
      pattern. The project field is read but takes no part in it. */
  function Validate(name: Option<string>, email: Option<string>,
                    project: Option<string>, message: Option<string>): (r: Outcome)
    ensures r == MissingFields <==> !(Filled(name) && Filled(email) && Filled(message))
    ensures r == BadEmail <==>
      Filled(name) && Filled(email) && Filled(message) && !MatchesEmailPattern(email.value)
    ensures r == Accepted <==>
      Filled(name) && Filled(email) && Filled(message) && MatchesEmailPattern(email.value)
  {
    if !Filled(name) || !Filled(email) || !Filled(message) then
      MissingFields
    else
      EmailTestIsPattern(email.value);
      if !IsValidEmail(email.value) then BadEmail else Accepted
  }

  /** A missing or empty required field is reported as such, whatever the
      other fields hold. */
  lemma MissingFieldWins(name: Option<string>, email: Option<string>,
                         project: Option<string>, message: Option<string>)
    requires !Filled(name) || !Filled(email) || !Filled(message)
    ensures Validate(name, email, project, message) == MissingFields
  {
  }

  /** The project field never changes the outcome. */
  lemma ProjectIsIgnored(name: Option<string>, email: Option<string>,
                         project: Option<string>, other: Option<string>,
                         message: Option<string>)
    ensures Validate(name, email, project, message) == Validate(name, email, other, message)
  {
  }

  /** The required-field test runs first: an absent or empty email is a
      missing field, never an invalid address. */
  lemma EmptyEmailIsMissing(name: Option<string>, email: Option<string>,
                            project: Option<string>, message: Option<string>)
    requires email == None || email == Some("")
    ensures Validate(name, email, project, message) == MissingFields
  {
  }

  /** An accepted submission has exactly one `@`; it splits into a
      non-empty local part and a domain with a `.` that is neither its
      first nor its last character, and neither part holds whitespace or
      another `@`. */
  lemma AcceptedEmailShape(name: Option<string>, email: Option<string>,
                           project: Option<string>, message: Option<string>)
    requires Validate(name, email, project, message) == Accepted
    ensures email.Some? && multiset(email.value)['@'] == 1
    ensures exists local: string, domain: string
      | Run(local) && Run(domain) && email.value == local + "@" + domain ::
      exists i | 0 < i < |domain| - 1 :: domain[i] == '.'
  {
    var s := email.value;
    EmailTestIsPattern(s);
    ValidEmailHasOneAt(s);
    var local: string, host: string, tld: string :|
      Run(local) && Run(host) && Run(tld) && s == local + "@" + host + "." + tld;
    var domain := host + "." + tld;
    assert s == local + "@" + domain;
    assert domain[|host|] == '.';
    assert Run(domain) by {
      forall k | 0 <= k < |domain| ensures EmailChar(domain[k]) {
        if k < |host| {
          assert domain[k] == host[k];
        } else if k > |host| {
          assert domain[k] == tld[k - |host| - 1];
        }
      }
    }
  }
}

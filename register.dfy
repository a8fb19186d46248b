/** The email-provider allowlist `register` applies before creating a panel account:
    an address passes when one of the listed provider names occurs anywhere in the
    text between its first and second '@' (Python's `provider in email.split('@')[1]`).
    An address without '@' has no such field and is refused. */
module Register {
  import opened Common

  /** The provider names, in the order the check tries them. */
  const Providers: seq<string> := [
    "outlook", "gmail", "live", "hotmail", "icloud", "me.com", "mac.com", "aol.com",
    "yahoo", "protonmail", "pm.com", "zoho.com", "yandex", "titan.email", "gmx.com",
    "hubspot.com", "mail.com"
  ]

  /** Python's `sub in s` on strings, as a scan from the left. */
  predicate Contains(s: string, sub: string)
    decreases |s|
  {
    |sub| <= |s| && (s[..|sub|] == sub || Contains(s[1..], sub))
  }

  /** `sub` occurs in `s` starting at position `i`. */
  predicate OccursAt(s: string, sub: string, i: int)
  {
    0 <= i <= |s| - |sub| && s[i..i + |sub|] == sub
  }

  /** The scan agrees with the positional definition of a substring. */
  lemma {:induction false} ContainsIff(s: string, sub: string)
    ensures Contains(s, sub) <==> exists i :: OccursAt(s, sub, i)
  {
    if |sub| <= |s| {
      if s[..|sub|] == sub {
        assert OccursAt(s, sub, 0);
      } else if |s| > 0 {
        ContainsIff(s[1..], sub);
        if exists i :: OccursAt(s, sub, i) {
          var i :| OccursAt(s, sub, i);
          assert s[1..][i - 1..i - 1 + |sub|] == s[i..i + |sub|];
          assert OccursAt(s[1..], sub, i - 1);
        }
        if Contains(s[1..], sub) {
          var i :| OccursAt(s[1..], sub, i);
          assert s[1..][i..i + |sub|] == s[i + 1..i + 1 + |sub|];
          assert OccursAt(s, sub, i + 1);
        }
      }
    }
  }

  /** The separator `split` cuts at. */
  predicate IsAt(c: char)
  {
    c == '@'
  }

  /** `email.split('@')[1]`: the text between the first '@' and the next '@' (or the
      end), None when the address has no '@' (the IndexError the check skips). */
  function DomainField(email: string): (r: Option<string>)
    ensures r.None? <==> '@' !in email
    ensures r.Some? ==> '@' !in r.value && |r.value| < |email|
  {
    match FirstIndex(email, IsAt)
    case None => None
    case Some(i) =>
      var rest := email[i + 1..];
      match FirstIndex(rest, IsAt)
      case None => Some(rest)
      case Some(j) => Some(rest[..j])
  }

  /** Every address with an '@' reads `local@field` followed by nothing or by another
      '@'-separated part, and DomainField gives back exactly `field`. */
  lemma DomainOfAddress(local: string, field: string, tail: string)
    requires '@' !in local && '@' !in field
    requires tail == [] || tail[0] == '@'
    ensures DomainField(local + "@" + field + tail) == Some(field)
  {
    var email := local + "@" + field + tail;
    var after := ['@'] + field + tail;
    assert email == local + after;
    assert IsAt(after[0]);
    FirstIndexAppend(local, after, IsAt);
    assert FirstIndex(email, IsAt) == Some(|local|);
    var rest := email[|local| + 1..];
    assert rest == field + tail;
    FirstIndexAppend(field, tail, IsAt);
    if tail == [] {
      assert rest == field;
    } else {
      assert IsAt(tail[0]);
      assert FirstIndex(rest, IsAt) == Some(|field|);
      assert rest[..|field|] == field;
    }
  }

  /** The allowlist check of `register`: some provider name occurs in the field. */
  function EmailAllowed(email: string): (ok: bool)
    ensures ok <==> (DomainField(email).Some?
      && exists k :: 0 <= k < |Providers| && Contains(DomainField(email).value, Providers[k]))
  {
    match DomainField(email)
    case None => false
    case Some(field) => FirstIndex(Providers, (p: string) => Contains(field, p)).Some?
  }

  /** For an address `local@domain` the verdict is: some provider name occurs at some
      position of the domain, which is all the check looks for. */
  lemma AllowedIff(local: string, domain: string)
    requires '@' !in local && '@' !in domain
    ensures EmailAllowed(local + "@" + domain) <==>
      exists k, i :: 0 <= k < |Providers| && OccursAt(domain, Providers[k], i)
  {
    DomainOfAddress(local, domain, []);
    assert local + "@" + domain + [] == local + "@" + domain;
    forall k | 0 <= k < |Providers| {
      ContainsIff(domain, Providers[k]);
    }
  }

  /** An address without '@' is refused. */
  lemma NoSeparatorRefused(email: string)
    requires '@' !in email
    ensures !EmailAllowed(email)
  {
  }

  /** An address whose field is shorter than every provider name is refused, whatever
      follows it; in particular one whose first '@' is directly followed by another. */
  lemma ShortFieldRefused(local: string, field: string, tail: string)
    requires '@' !in local && '@' !in field && |field| < 4
    requires tail == [] || tail[0] == '@'
    ensures !EmailAllowed(local + "@" + field + tail)
  {
    DomainOfAddress(local, field, tail);
    ProviderLengths();
  }

  /** Every provider name has at least four characters, so none fits in a shorter
      field. */
  lemma ProviderLengths()
    ensures forall k :: 0 <= k < |Providers| ==> |Providers[k]| >= 4
  {
  }

  /** A common provider passes, and so does a look-alike domain that merely contains a
      provider name. */
  lemma GmailAllowed(local: string, rest: string)
    requires '@' !in local && '@' !in rest
    ensures EmailAllowed(local + "@" + "gmail" + rest)
  {
    AllowedIff(local, "gmail" + rest);
    assert OccursAt("gmail" + rest, Providers[1], 0);
    assert local + "@" + ("gmail" + rest) == local + "@" + "gmail" + rest;
  }
}

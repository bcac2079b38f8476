/** users/models.py: the employee record, its phone-number check and the name it
    is shown under. */
module Users {
  import opened Common

  datatype Role = Manager | SalesRole | InventoryRole

  /** An employee; an empty `phone` stands for a phone left blank (or None). */
  datatype Employee = Employee(
    username: string,
    firstName: string,
    lastName: string,
    role: Role,
    phone: string,
    isActive: bool)

  /** `s` with every occurrence of `c` removed (`str.replace(c, '')`). */
  function RemoveChar(s: string, c: char): (r: string)
    ensures forall x :: x in r <==> x in s && x != c
    ensures |r| <= |s|
  {
    if s == [] then []
    else (if s[0] == c then [] else [s[0]]) + RemoveChar(s[1..], c)
  }

  /** `str.isdigit` on ASCII text: non-empty and made only of digits. */
  predicate IsDigitString(s: string) {
    s != [] && IsDigits(s)
  }

  lemma DigitsByMembership(s: string)
    ensures IsDigits(s) <==> forall x :: x in s ==> IsDigit(x)
  {
    if IsDigits(s) {
      forall x | x in s ensures IsDigit(x) {
        var i :| 0 <= i < |s| && s[i] == x;
      }
    }
  }

  /** `Employee.clean`: a phone that is not blank must consist of digits once the
      plus signs and spaces are removed. */
  function CleanPhone(phone: string): (r: Outcome)
    ensures r.Fail? ==> r.error == InvalidPhone
    ensures phone == [] ==> r == Pass
  {
    if phone != [] && !IsDigitString(RemoveChar(RemoveChar(phone, '+'), ' ')) then Fail(InvalidPhone)
    else Pass
  }

  /** The characters a phone may hold: digits, '+' and ' '. */
  predicate PhoneChar(x: char) {
    IsDigit(x) || x == '+' || x == ' '
  }

  /** The phone check in plain terms: a phone is accepted exactly when it is blank,
      or it holds only digits, plus signs and spaces and at least one digit. So a
      phone of only plus signs and spaces is refused, as is any other character. */
  lemma CleanPhoneAccepts(phone: string)
    ensures CleanPhone(phone).Pass? <==>
      phone == [] ||
      ((forall x :: x in phone ==> PhoneChar(x)) && exists x :: x in phone && IsDigit(x))
  {
    var stripped := RemoveChar(RemoveChar(phone, '+'), ' ');
    DigitsByMembership(stripped);
    if phone != [] && (forall x :: x in phone ==> PhoneChar(x)) && exists x :: x in phone && IsDigit(x) {
      var x :| x in phone && IsDigit(x);
      assert x in stripped;
    }
    if phone != [] && IsDigitString(stripped) {
      assert stripped[0] in stripped;
    }
  }

  /** Removing a character that does not occur changes nothing. */
  lemma {:induction false} RemoveAbsent(s: string, c: char)
    requires c !in s
    ensures RemoveChar(s, c) == s
  {
    if s != [] {
      assert c !in s[1..];
      RemoveAbsent(s[1..], c);
    }
  }

  lemma PhoneWithPlusAndSpace(p: string)
    requires p == "+25 6"
    ensures CleanPhone(p) == Pass
  {
    assert |p| == 5 && p[0] == '+' && p[1] == '2' && p[2] == '5' && p[3] == ' ' && p[4] == '6';
    forall x | x in p ensures PhoneChar(x) {
      var i :| 0 <= i < |p| && p[i] == x;
    }
    assert p[1] in p;
    CleanPhoneAccepts(p);
  }

  lemma PhoneWithoutDigits()
    ensures CleanPhone("+ ") == Fail(InvalidPhone)
  {
    assert RemoveChar(RemoveChar("+ ", '+'), ' ') == "";
  }

  lemma PhoneWithHyphen()
    ensures CleanPhone("0-1") == Fail(InvalidPhone)
  {
    RemoveAbsent("0-1", '+');
    RemoveAbsent("0-1", ' ');
    assert !IsDigit("0-1"[1]);
  }

  /** The whitespace `str.strip` removes: the characters Python's `str.isspace`
      accepts (tab to carriage return, the four separators U+001C to U+001F, the
      space, NEL, the no-break space and the Unicode space separators). */
  predicate IsSpace(c: char) {
    || '\t' <= c <= '\r'
    || '\U{001C}' <= c <= ' '
    || c == '\U{0085}' || c == '\U{00A0}' || c == '\U{1680}'
    || '\U{2000}' <= c <= '\U{200A}'
    || c == '\U{2028}' || c == '\U{2029}' || c == '\U{202F}' || c == '\U{205F}' || c == '\U{3000}'
  }

  predicate AllSpace(s: string) {
    forall i :: 0 <= i < |s| ==> IsSpace(s[i])
  }

  /** The number of whitespace characters `s` starts with. */
  function LeadingSpaces(s: string): (n: nat)
    ensures n <= |s|
    ensures forall i :: 0 <= i < n ==> IsSpace(s[i])
    ensures n == |s| || !IsSpace(s[n])
  {
    if s == [] || !IsSpace(s[0]) then 0 else 1 + LeadingSpaces(s[1..])
  }

  /** `str.lstrip`: the suffix of `s` left after its leading whitespace. */
  function StripLeft(s: string): (r: string)
    ensures |r| <= |s| && r == s[|s| - |r|..]
    ensures AllSpace(s[..|s| - |r|])
    ensures r == [] || !IsSpace(r[0])
  {
    var n := LeadingSpaces(s);
    assert forall i :: 0 <= i < n ==> s[..n][i] == s[i];
    s[n..]
  }

  /** `str.rstrip`: the prefix of `s` left before its trailing whitespace. */
  function StripRight(s: string): (r: string)
    ensures |r| <= |s| && r == s[..|r|]
    ensures AllSpace(s[|r|..])
    ensures r == [] || !IsSpace(r[|r| - 1])
  {
    if s == [] || !IsSpace(s[|s| - 1]) then s
    else
      var r := StripRight(s[..|s| - 1]);
      assert s[..|s| - 1][|r|..] == s[|r|..|s| - 1];
      r
  }

  /** `str.strip`: a slice of `s` that neither starts nor ends with whitespace,
      with only whitespace cut on either side. */
  function Strip(s: string): (r: string)
    ensures |r| <= |StripLeft(s)| && r == StripLeft(s)[..|r|]
    ensures r == [] || (!IsSpace(r[0]) && !IsSpace(r[|r| - 1]))
  {
    StripRight(StripLeft(s))
  }

  /** Stripping gives the empty string exactly when the text is all whitespace. */
  lemma StripEmpty(s: string)
    ensures Strip(s) == [] <==> AllSpace(s)
  {
    var left := StripLeft(s);
    var r := StripRight(left);
    var k := |s| - |left|;
    if r == [] {
      assert s[..k] == s;
    } else {
      assert s[k] == left[0] == r[0];
    }
  }

  /** `Employee.full_name`: "first last" stripped, or the username when that is empty. */
  function FullName(e: Employee): (r: string)
    ensures r == e.username || (r != [] && !IsSpace(r[0]) && !IsSpace(r[|r| - 1]))
  {
    var n := Strip(e.firstName + " " + e.lastName);
    if n == [] then e.username else n
  }

  /** "first last" is all whitespace exactly when both parts are. */
  lemma AllSpaceJoin(a: string, b: string)
    ensures AllSpace(a + " " + b) <==> AllSpace(a) && AllSpace(b)
  {
    var s := a + " " + b;
    if AllSpace(a) && AllSpace(b) {
      forall i | 0 <= i < |s| ensures IsSpace(s[i]) {
        if i < |a| {
          assert s[i] == a[i];
        } else if i > |a| {
          assert s[i] == b[i - |a| - 1];
        }
      }
    }
    if AllSpace(s) {
      forall i | 0 <= i < |a| ensures IsSpace(a[i]) {
        assert s[i] == a[i];
      }
      forall i | 0 <= i < |b| ensures IsSpace(b[i]) {
        assert s[|a| + 1 + i] == b[i];
      }
    }
  }

  /** The username is shown exactly when both name parts are blank or whitespace;
      otherwise the shown name is the stripped "first last". */
  lemma FullNameFallback(e: Employee)
    ensures AllSpace(e.firstName) && AllSpace(e.lastName) ==> FullName(e) == e.username
    ensures !(AllSpace(e.firstName) && AllSpace(e.lastName)) ==>
      FullName(e) == Strip(e.firstName + " " + e.lastName) && FullName(e) != []
  {
    AllSpaceJoin(e.firstName, e.lastName);
    StripEmpty(e.firstName + " " + e.lastName);
  }

  /** A first name made of an information separator alone (U+001C) counts as blank,
      as `str.strip` removes it: the username is shown. */
  lemma SeparatorNameShowsUsername(e: Employee)
    requires e.firstName == "\U{001C}" && e.lastName == ""
    ensures FullName(e) == e.username
  {
    FullNameFallback(e);
  }
}

/**
 * scraper_nabu_wvh.py: stations read from the NABU map's KML export. Each
 * placemark's description is split into lines, and the lines are classified
 * one by one into contact person, street, postcode line and specialization.
 * Contact details come from fixed patterns, the postcode decides region and
 * country, and entries already known are skipped.
 */
module NabuScraper {
  import opened Common
  import opened Text
  import opened Regex
  import opened Records
  import opened Sorting
  import FixCoordinates

  // ---------------------------------------------------------------------------
  // is_duplicate

  /**
   * `entry.get(key, '')` where the code goes on to call `.lower()` on it: the
   * text, or `None` when the field holds something other than a string (the
   * call then raises).
   */
  function TextField(entry: Record, key: string): Option<string>
  {
    if key !in entry then Some("") else if entry[key].Str? then Some(entry[key].s) else None
  }

  /** An existing entry matches: the same name ignoring case, or a known address of more than ten characters inside the new one. */
  predicate SameEntry(existingName: string, existingAddress: string, name: string, address: string)
  {
    || LowerStr(existingName) == LowerStr(name)
    || (Contains(LowerStr(address), LowerStr(existingAddress)) && |existingAddress| > 10)
  }

  /** The test of one existing entry, in evaluation order; `None` when it raises. */
  function EntryVerdict(entry: Record, name: string, address: string): Option<bool>
  {
    match TextField(entry, "name")
    case None => None
    case Some(n) =>
      if LowerStr(n) == LowerStr(name) then Some(true)
      else
        match TextField(entry, "address")
        case None => None
        case Some(a) => Some(Contains(LowerStr(address), LowerStr(a)) && |a| > 10)
  }

  /** `is_duplicate` over `existing`: the first entry that matches or raises decides. */
  function Duplicate(existing: seq<Record>, name: string, address: string): Option<bool>
  {
    if existing == [] then Some(false)
    else
      match EntryVerdict(existing[0], name, address)
      case Some(false) => Duplicate(existing[1..], name, address)
      case v => v
  }

  /** Every existing entry holds strings (or nothing) under `name` and `address`. */
  predicate Readable(existing: seq<Record>)
  {
    forall k | 0 <= k < |existing| :: TextField(existing[k], "name").Some? && TextField(existing[k], "address").Some?
  }

  /**
   * Over readable entries the check never raises, and it answers true exactly
   * when some entry has the same name ignoring case, or an address of more
   * than ten characters contained in the new address ignoring case.
   */
  lemma {:induction false} DuplicateIff(existing: seq<Record>, name: string, address: string)
    requires Readable(existing)
    ensures Duplicate(existing, name, address) == Some(exists k | 0 <= k < |existing| ::
      SameEntry(TextField(existing[k], "name").value, TextField(existing[k], "address").value, name, address))
  {
    if existing != [] {
      assert Readable(existing[1..]) by {
        forall k | 0 <= k < |existing| - 1 ensures existing[1..][k] == existing[k + 1] { }
      }
      DuplicateIff(existing[1..], name, address);
      var tail := existing[1..];
      assert forall k | 1 <= k < |existing| :: existing[k] == tail[k - 1];
    }
  }

  // ---------------------------------------------------------------------------
  // extract_plz_info

  /** What `extract_plz_info` returns: the code, the prefix, the region label and the country. */
  datatype PlzInfo = PlzInfo(plz: string, prefix: string, region: string, country: string)

  /** `\b(\d{4})\b` tried at position `i`. */
  function FourAt(s: string, i: nat): Option<string>
  {
    if i + 4 <= |s| && Boundary(s, i) && DigitsAt(s, i, 4) && Boundary(s, i + 4)
    then Some(s[i..i + 4]) else None
  }

  /** `re.search(r'\b(\d{4})\b', s).group(1)`, or None. */
  function SearchFour(s: string): (r: Option<string>)
    ensures r.Some? ==> |r.value| == 4 && AllDigits(r.value)
    ensures r.Some? ==> exists i | 0 <= i <= |s| :: FourAt(s, i) == r
    ensures r.None? <==> forall i | 0 <= i <= |s| :: FourAt(s, i).None?
  {
    var m := (i: nat) => FourAt(s, i);
    assert forall i: nat :: m(i) == FourAt(s, i);
    match Search(|s|, 0, m)
    case Some((i, v)) => Some(v)
    case None => None
  }

  const AustrianWords: seq<string> := ["\U{F6}sterreich", "austria", "wien", "salzburg", "graz"]
  const SwissWords: seq<string> := ["schweiz", "switzerland", "z\U{FC}rich", "basel", "bern"]

  const Unknown: PlzInfo := PlzInfo("", "", "Unbekannt", "Deutschland")

  /** `extract_plz_info(address)`. */
  function ExtractPlzInfo(address: string): PlzInfo
  {
    match FixCoordinates.ExtractPlz(address)
    case Some(plz) => PlzInfo(plz, plz[..1], "PLZ " + plz[..1], "Deutschland")
    case None =>
      match SearchFour(address)
      case None => Unknown
      case Some(plz) =>
        if ContainsAny(LowerStr(address), AustrianWords) then PlzInfo(plz, "\U{F6}sterreich", "\U{D6}sterreich", "\U{D6}sterreich")
        else if ContainsAny(LowerStr(address), SwissWords) then PlzInfo(plz, "schweiz", "Schweiz", "Schweiz")
        else Unknown
  }

  /**
   * A whole-word five-digit code wins: the code, its first digit, "PLZ" and
   * that digit, Germany. Otherwise a whole-word four-digit code counts only
   * beside an Austrian word (tried first) or a Swiss word; anything else is
   * the fallback.
   */
  lemma ExtractPlzInfoCases(address: string)
    ensures var r := ExtractPlzInfo(address);
      (exists i: nat :: FixCoordinates.IsolatedFive(address, i)) ==>
        && |r.plz| == 5 && AllDigits(r.plz) && r.prefix == r.plz[..1]
        && r.region == "PLZ " + r.prefix && r.country == "Deutschland"
        && Contains(address, r.plz)
    ensures var r := ExtractPlzInfo(address);
      (forall i: nat :: !FixCoordinates.IsolatedFive(address, i)) ==>
        if SearchFour(address).Some? && ContainsAny(LowerStr(address), AustrianWords) then
          r == PlzInfo(SearchFour(address).value, "\U{F6}sterreich", "\U{D6}sterreich", "\U{D6}sterreich")
        else if SearchFour(address).Some? && ContainsAny(LowerStr(address), SwissWords) then
          r == PlzInfo(SearchFour(address).value, "schweiz", "Schweiz", "Schweiz")
        else r == Unknown
  {
    var five := FixCoordinates.ExtractPlz(address);
    if five.Some? {
      var i: nat :| FixCoordinates.IsolatedFive(address, i) && five.value == address[i..i + 5];
      ContainsAt(address, five.value, i);
    }
  }

  /** The fallback is the only answer without a code, and an answer with a code always has a prefix. */
  lemma ExtractPlzInfoCode(address: string)
    ensures var r := ExtractPlzInfo(address);
      (r.plz == "" <==> r == Unknown) && (r.plz != "" ==> r.prefix != "" && r.region != "Unbekannt")
  {
  }

  // ---------------------------------------------------------------------------
  // clean_text

  predicate NotGt(c: char) { c != '>' }

  predicate IsBackslash(c: char) { c == '\\' }

  /**
   * `<[^>]+>` at `i`. The class excludes '>', so of the lengths the greedy
   * repeat tries only the longest can be followed by '>'.
   */
  function TagAt(s: string, i: nat): (r: Option<nat>)
    ensures r.Some? ==> i < r.value <= |s|
  {
    if i < |s| && s[i] == '<' then
      var n := Run(s, i + 1, NotGt);
      if n >= 1 && i + 1 + n < |s| then Some(i + 2 + n) else None
    else None
  }

  /** `\\+` at `i`: the whole run of backslashes. */
  function BackslashesAt(s: string, i: nat): (r: Option<nat>)
    ensures r.Some? ==> i < r.value <= |s|
    ensures r.None? && i < |s| ==> s[i] != '\\'
  {
    if i < |s| && s[i] == '\\' then Some(i + Run(s, i, IsBackslash)) else None
  }

  /** `TagAt` as a matcher over positions of `s`. */
  function TagMatcher(s: string): (m: nat -> Option<nat>)
    ensures Consuming(s, m)
  {
    (i: nat) => TagAt(s, i)
  }

  /** `BackslashesAt` as a matcher over positions of `s`. */
  function SlashMatcher(s: string): (m: nat -> Option<nat>)
    ensures Consuming(s, m)
  {
    (i: nat) => BackslashesAt(s, i)
  }

  /** `re.sub(r'<[^>]+>', '', s)`. */
  function Untagged(s: string): string
  {
    Sub(s, TagMatcher(s), "")
  }

  /** `re.sub(r'\\+', '', s)`. */
  function Unslashed(s: string): string
  {
    Sub(s, SlashMatcher(s), "")
  }

  /** `clean_text(text)`: trimmed, whitespace runs made one space, tags and backslashes deleted. */
  function CleanText(text: string): string
  {
    if text == "" then "" else Unslashed(Untagged(CollapseSpaces(Strip(text))))
  }

  predicate SpaceIsBlank(c: char) { IsSpace(c) ==> c == ' ' }

  /** The cleaned text has no backslash and no whitespace but plain spaces, and is no longer than the text. */
  lemma CleanTextClean(text: string)
    ensures var r := CleanText(text);
      && (forall k | 0 <= k < |r| :: r[k] != '\\' && SpaceIsBlank(r[k]))
      && |r| <= |text|
      && (text == "" ==> r == "")
  {
    if text != "" {
      var collapsed := CollapseSpaces(Strip(text));
      CollapseSpacesShape(Strip(text));
      SubFromDeletes(collapsed, 0, TagMatcher(collapsed), SpaceIsBlank);
      var untagged := Untagged(collapsed);
      SubFromDeletes(untagged, 0, SlashMatcher(untagged), SpaceIsBlank);
      SubFromClears(untagged, 0, SlashMatcher(untagged), c => c != '\\');
    }
  }

  /** A text without '<' and '\\' is only trimmed and collapsed. */
  lemma CleanTextPlain(text: string)
    requires '<' !in text && '\\' !in text
    ensures CleanText(text) == CollapseSpaces(Strip(text))
  {
    if text != "" {
      var collapsed := CollapseSpaces(Strip(text));
      var plain := (c: char) => c != '<' && c != '\\';
      StripByKeeps(text, IsSpace, plain);
      CollapseSpacesKeeps(Strip(text), plain);
      assert forall i | 0 <= i <= |collapsed| :: TagMatcher(collapsed)(i).None?;
      assert forall i | 0 <= i <= |collapsed| :: SlashMatcher(collapsed)(i).None?;
    }
  }

  // ---------------------------------------------------------------------------
  // clean_phone_number

  /** The characters `re.sub(r'[^\d\+\-\s/\.]', '', phone)` keeps. */
  predicate IsDialChar(c: char)
  {
    IsDigit(c) || IsSpace(c) || c in {'+', '-', '/', '.'}
  }

  /** `re.match(r'^\d{4,5}$', phone)`: a bare postcode. */
  predicate IsBareCode(p: string)
  {
    (DigitsAt(p, 0, 5) && AtEnd(p, 5)) || (DigitsAt(p, 0, 4) && AtEnd(p, 4))
  }

  /** `clean_phone_number(phone)`. */
  function CleanPhoneNumber(phone: string): (r: string)
    ensures r == Strip(r)
    ensures forall k | 0 <= k < |r| :: IsDialChar(r[k])
    ensures IsBareCode(Strip(phone)) ==> r == ""
  {
    if phone == "" then ""
    else
      var p := Strip(phone);
      if IsBareCode(p) then ""
      else
        var kept := Filter(p, IsDialChar);
        StripByIdempotent(kept, IsSpace);
        StripByKeeps(kept, IsSpace, IsDialChar);
        Strip(kept)
  }

  /** A number that is already clean (trimmed, dialling characters only, not a bare postcode) is left as it is. */
  lemma CleanPhoneNumberKeepsClean(phone: string)
    requires phone == Strip(phone) && AllChars(phone, IsDialChar) && !IsBareCode(phone)
    ensures CleanPhoneNumber(phone) == phone
  {
    if phone != "" {
      FilterAll(phone, IsDialChar);
    }
  }

  // ---------------------------------------------------------------------------
  // extract_contact_info

  /** The class `[\d\s\-/\.]` of a number. */
  predicate IsNumberChar(c: char) { IsDigit(c) || IsSpace(c) || c in {'-', '/', '.'} }

  /**
   * The group `(\+?[\d\s\-/\.]{6,20})` at `j`. Nothing follows it in the
   * pattern, so the engine's first try is the match: the plus sign if there is
   * one, then the longest run of the class, cut at 20. '+' is outside the
   * class, so leaving the sign out cannot succeed either.
   */
  function NumberAt(s: string, j: nat): (r: Option<string>)
    ensures r.Some? ==> 6 <= |r.value| <= 21
  {
    if j < |s| && s[j] == '+' then
      var n := Run(s, j + 1, IsNumberChar);
      if n >= 6 then Some(s[j..j + 1 + Min(20, n)]) else None
    else if j <= |s| then
      var n := Run(s, j, IsNumberChar);
      if n >= 6 then Some(s[j..j + Min(20, n)]) else None
    else None
  }

  /** `\s*:?\s*` from `e`, then `k`, every combination in the order the engine tries them. */
  function SeparatorThen(s: string, e: nat, k: nat -> Option<string>): Option<string>
  {
    StarThen(s, e, IsSpace, (e2: nat) => OptThen(s, e2, ':', (e3: nat) => StarThen(s, e3, IsSpace, k)))
  }

  /** The alternatives of `(?:Fon|Tel\.?|Telefon|Phone|Mobil|Mobile)` in the order they are tried. */
  const PhoneLabels: seq<string> := ["fon", "tel.", "tel", "telefon", "phone", "mobil", "mobile"]

  /** Where each alternative that matches at `i` (ignoring case) ends, in order. */
  function LabelEnds(s: string, i: nat, labels: seq<string>): (ends: seq<nat>)
    ensures forall k | 0 <= k < |ends| :: i <= ends[k] <= |s|
  {
    if labels == [] then []
    else (if LitAtIgnoringCase(s, i, labels[0]) then [i + |labels[0]|] else []) + LabelEnds(s, i, labels[1..])
  }

  function NumberFrom(s: string): nat -> Option<string>
  {
    (j: nat) => NumberAt(s, j)
  }

  /** The first phone pattern at `i`: a label, the separator, the number. */
  function LabelledNumberAt(s: string, i: nat): Option<string>
  {
    FirstOk(LabelEnds(s, i, PhoneLabels), (e: nat) => SeparatorThen(s, e, NumberFrom(s)))
  }

  /** `Fon:\s*(...)` at `i`, ignoring case. */
  function FonNumberAt(s: string, i: nat): Option<string>
  {
    if LitAtIgnoringCase(s, i, "fon:") then StarThen(s, i + 4, IsSpace, NumberFrom(s)) else None
  }

  /** `Tel\.?:\s*(...)` at `i`, ignoring case. */
  function TelNumberAt(s: string, i: nat): Option<string>
  {
    if LitAtIgnoringCase(s, i, "tel") then
      OptThen(s, i + 3, '.', (e: nat) => if e < |s| && s[e] == ':' then StarThen(s, e + 1, IsSpace, NumberFrom(s)) else None)
    else None
  }

  /** `Fax\s*:?\s*(...)` at `i`, ignoring case. */
  function FaxNumberAt(s: string, i: nat): Option<string>
  {
    if LitAtIgnoringCase(s, i, "fax") then SeparatorThen(s, i + 3, NumberFrom(s)) else None
  }

  /** The first match of one number pattern, cleaned, when it keeps at least six characters. */
  function NumberBy(text: string, m: nat -> Option<string>): (r: Option<string>)
    ensures r.Some? ==> |r.value| >= 6 && r.value == Strip(r.value) && AllChars(r.value, IsDialChar)
  {
    match Search(|text|, 0, m)
    case None => None
    case Some((_, g)) =>
      var p := CleanPhoneNumber(g);
      if |p| >= 6 then Some(p) else None
  }

  /** The empty text, or a number of at least six dialling characters with no surrounding blanks. */
  predicate PhoneShaped(p: string)
  {
    p == "" || (|p| >= 6 && p == Strip(p) && AllChars(p, IsDialChar))
  }

  /** The phone: the three patterns in turn, the first whose match cleans to six characters or more. */
  function PhoneOf(text: string): (r: string)
    ensures PhoneShaped(r)
  {
    match NumberBy(text, (i: nat) => LabelledNumberAt(text, i))
    case Some(p) => p
    case None =>
      match NumberBy(text, (i: nat) => FonNumberAt(text, i))
      case Some(p) => p
      case None =>
        match NumberBy(text, (i: nat) => TelNumberAt(text, i))
        case Some(p) => p
        case None => ""
  }

  function FaxOf(text: string): (r: string)
    ensures PhoneShaped(r)
  {
    match NumberBy(text, (i: nat) => FaxNumberAt(text, i))
    case Some(p) => p
    case None => ""
  }

  predicate IsLocalChar(c: char) { IsAsciiLetter(c) || IsDigit(c) || c in {'.', '_', '%', '+', '-'} }

  predicate IsDomainChar(c: char) { IsAsciiLetter(c) || IsDigit(c) || c in {'.', '-'} }

  /** `\.[a-zA-Z]{2,}` at `p`, ending the pattern: the longest run of letters. */
  function TopLevelAt(s: string, p: nat): (r: Option<nat>)
    ensures r.Some? ==> p + 3 <= r.value <= |s| && s[p] == '.' && IsAsciiLetter(s[r.value - 1])
  {
    if p < |s| && s[p] == '.' && Run(s, p + 1, IsAsciiLetter) >= 2 then Some(p + 1 + Run(s, p + 1, IsAsciiLetter))
    else None
  }

  /**
   * `[a-zA-Z0-9._%+-]+@[a-zA-Z0-9.-]+\.[a-zA-Z]{2,}` at `i`: where the match
   * ends. '@' is outside the first class, so only its longest run can be
   * followed by '@'; the domain run is tried longest first.
   */
  function EmailAt(s: string, i: nat): (r: Option<nat>)
    ensures r.Some? ==> i + 1 < r.value <= |s| && IsLocalChar(s[i]) && IsAsciiLetter(s[r.value - 1])
  {
    if i <= |s| then
      var n := Run(s, i, IsLocalChar);
      if n >= 1 && i + n < |s| && s[i + n] == '@' then
        var ends := Plus(s, i + n + 1, IsDomainChar);
        var r := FirstOk(ends, (p: nat) => TopLevelAt(s, p));
        assert r.Some? ==> i + n + 1 < r.value by {
          if r.Some? {
            var k := FirstOkAt(ends, (p: nat) => TopLevelAt(s, p));
          }
        }
        r
      else None
    else None
  }

  /** Where the '@' of the match at `i` is: right after the longest run of local characters. */
  lemma EmailAtSign(s: string, i: nat) returns (a: nat)
    requires EmailAt(s, i).Some?
    ensures i < a < EmailAt(s, i).value && s[a] == '@'
  {
    a := i + Run(s, i, IsLocalChar);
  }

  predicate NotSpace(c: char) { !IsSpace(c) }

  /** `[^\s]+` from `e`, ending the pattern: the longest run. */
  function NonSpaceEnd(s: string, e: nat): (r: Option<nat>)
    ensures r.Some? ==> e < r.value <= |s| && AllIn(s, e, r.value, NotSpace)
  {
    if e <= |s| && Run(s, e, NotSpace) >= 1 then Some(e + Run(s, e, NotSpace)) else None
  }

  /**
   * `https?://[^\s]+` at `i`. The optional 's' is tried present first; when
   * the text has an 's' there, leaving it out cannot be followed by "://".
   */
  function HttpAt(s: string, i: nat): (r: Option<nat>)
    ensures r.Some? ==> (LitAt(s, i, "http://") && i + 7 < r.value) || (LitAt(s, i, "https://") && i + 8 < r.value)
    ensures r.Some? ==> r.value <= |s|
  {
    if !LitAt(s, i, "http") then None
    else if LitAt(s, i + 4, "s://") && NonSpaceEnd(s, i + 8).Some? then
      assert s[i..i + 8] == s[i..i + 4] + s[i + 4..i + 8];
      NonSpaceEnd(s, i + 8)
    else if LitAt(s, i + 4, "://") then
      assert s[i..i + 7] == s[i..i + 4] + s[i + 4..i + 7];
      NonSpaceEnd(s, i + 7)
    else None
  }

  /** `(https?://[^\s]+|www\.[^\s]+)` at `i`, the first alternative first. */
  function WebsiteAt(s: string, i: nat): (r: Option<nat>)
    ensures r.Some? ==> r.value <= |s|
    ensures r.Some? ==> || (LitAt(s, i, "http://") && i + 7 < r.value)
                        || (LitAt(s, i, "https://") && i + 8 < r.value)
                        || (LitAt(s, i, "www.") && i + 4 < r.value)
  {
    if HttpAt(s, i).Some? then HttpAt(s, i)
    else if LitAt(s, i, "www.") then NonSpaceEnd(s, i + 4)
    else None
  }

  /** The text of the first match of a pattern given by where its matches end. */
  function FirstMatch(text: string, m: nat -> Option<nat>): (r: string)
  {
    var r := Search<nat>(|text|, 0, m);
    if r.Some? && r.value.0 <= r.value.1 <= |text| then text[r.value.0..r.value.1] else ""
  }

  /** `extract_contact_info(text)`: always the four fields, "" where nothing was found. */
  datatype Contact = Contact(phone: string, fax: string, email: string, website: string)

  function ExtractContactInfo(text: string): Contact
  {
    Contact(PhoneOf(text), FaxOf(text), EmailOf(text), WebsiteOf(text))
  }

  function EmailOf(text: string): string
  {
    FirstMatch(text, EmailMatcher(text))
  }

  function EmailMatcher(text: string): nat -> Option<nat>
  {
    (i: nat) => EmailAt(text, i)
  }

  function WebsiteOf(text: string): string
  {
    FirstMatch(text, WebsiteMatcher(text))
  }

  function WebsiteMatcher(text: string): nat -> Option<nat>
  {
    (i: nat) => WebsiteAt(text, i)
  }

  /** What `FirstMatch` returns is empty or the text of a match, `text[i..e]` for the `i` where the pattern matched up to `e`. */
  lemma FirstMatchFound(text: string, m: nat -> Option<nat>) returns (i: nat, e: nat)
    ensures FirstMatch(text, m) != "" ==> i < e <= |text| && m(i) == Some(e) && FirstMatch(text, m) == text[i..e]
  {
    var r := Search<nat>(|text|, 0, m);
    i, e := 0, 0;
    if r.Some? {
      i, e := r.value.0, r.value.1;
      assert m(i) == Some(e);
    }
  }

  /** A piece of `text` that holds an '@' and ends in a letter. */
  predicate EmailLike(text: string, email: string)
  {
    email != "" && '@' in email && IsAsciiLetter(email[|email| - 1]) && Contains(text, email)
  }

  /** The email found is "" or a piece of the text that holds an '@' and ends in a letter. */
  lemma EmailShaped(text: string)
    ensures EmailOf(text) == "" || EmailLike(text, EmailOf(text))
  {
    var email := EmailOf(text);
    var i, e := FirstMatchFound(text, EmailMatcher(text));
    if email != "" {
      assert EmailMatcher(text)(i) == EmailAt(text, i);
      EmailMatch(text, i, e);
      assert email == text[i..e];
    }
  }

  lemma EmailMatch(text: string, i: nat, e: nat)
    requires EmailAt(text, i) == Some(e)
    ensures e <= |text| && EmailLike(text, text[i..e])
  {
    var a := EmailAtSign(text, i);
    EmailSlice(text, i, a, e);
  }

  /** A slice with an '@' inside that ends in a letter is email-like. */
  lemma EmailSlice(text: string, i: nat, a: nat, e: nat)
    requires i < a < e <= |text| && text[a] == '@' && IsAsciiLetter(text[e - 1])
    ensures EmailLike(text, text[i..e])
  {
    var email := text[i..e];
    assert email[a - i] == '@';
    assert email[|email| - 1] == text[e - 1];
    assert OccursAt(text, email, i) by {
      assert |email| == e - i;
    }
    ContainsAt(text, email, i);
  }

  /** The website found is "" or starts with "http://", "https://" or "www.". */
  lemma WebsiteShaped(text: string)
    ensures var site := WebsiteOf(text);
      site == "" || StartsWith(site, "http://") || StartsWith(site, "https://") || StartsWith(site, "www.")
  {
    var site := WebsiteOf(text);
    var i, e := FirstMatchFound(text, WebsiteMatcher(text));
    if site != "" {
      WebsiteMatch(text, i, e);
    }
  }

  lemma WebsiteMatch(text: string, i: nat, e: nat)
    requires WebsiteAt(text, i) == Some(e)
    ensures e <= |text| && (StartsWith(text[i..e], "http://") || StartsWith(text[i..e], "https://") || StartsWith(text[i..e], "www."))
  {
    if LitAt(text, i, "http://") && i + 7 < e {
      assert text[i..e][..7] == text[i..i + 7];
    } else if LitAt(text, i, "https://") && i + 8 < e {
      assert text[i..e][..8] == text[i..i + 8];
    } else {
      assert text[i..e][..4] == text[i..i + 4];
    }
  }

  // ---------------------------------------------------------------------------
  // Line classification shared by parse_kml_description and parse_description_text

  /** `re.search(r'\d{4,5}', line)`: four digits in a row somewhere (a fifth only lengthens the match). */
  predicate HasCode(line: string)
  {
    exists k | 0 <= k <= |line| :: DigitsAt(line, k, 4)
  }

  /** `re.search(r'(?:Fon|Tel|Fax):', line, re.IGNORECASE)`. */
  predicate HasContactLabel(line: string)
  {
    exists k | 0 <= k <= |line| :: LitAtIgnoringCase(line, k, "fon:") || LitAtIgnoringCase(line, k, "tel:") || LitAtIgnoringCase(line, k, "fax:")
  }

  const StreetStopWords: seq<string> := ["beratung", "aufnahme", "station", "pflege", "wildvogel"]

  const SpecWords: seq<string> :=
    ["beratung", "aufnahme", "station", "pflege", "wildvogel", "greifvogel",
     "singvogel", "wasservogel", "eule", "schwalbe", "mauersegler", "vogel"]

  const OrgWords: seq<string> := ["e.v.", "verein", "station", "hilfe", "nabu", "tierschutz", "bio-top"]

  /** A line that may name a person: no postcode and no '@'. */
  predicate PersonLike(line: string)
  {
    !HasCode(line) && '@' !in line
  }

  /** A line that may be a street: no postcode, no '@', no phone label and none of the station words. */
  predicate StreetLike(line: string)
  {
    PersonLike(line) && !HasContactLabel(line) && !ContainsAny(LowerStr(line), StreetStopWords)
  }

  /** `.+` after the blanks: it needs one character that is not a newline, and then takes the rest greedily. */
  function CityRestAt(s: string, e: nat): Option<nat>
  {
    if e < |s| && NotNewline(s[e]) then Some(e + 1 + Run(s, e + 1, NotNewline)) else None
  }

  /** `(\d{4,5})\s+(.+)` at `k`: five digits tried before four, then every length of the blanks, longest first. */
  function CodeCityAt(s: string, k: nat): Option<nat>
  {
    if k <= |s| then
      FirstOk(Greedy(s, k, IsDigit, 4, 5), BlanksThenCity(s))
    else None
  }

  /** `\s+(.+)` from the end of the code. */
  function BlanksThenCity(s: string): nat -> Option<nat>
  {
    (e: nat) => if e <= |s| then FirstOk(Plus(s, e, IsSpace), (b: nat) => CityRestAt(s, b)) else None
  }

  /** A line holding a postcode followed by blanks and more text. */
  predicate CityLine(line: string)
  {
    Search(|line|, 0, (k: nat) => CodeCityAt(line, k)).Some?
  }

  /** A line collected into the specialization: longer than ten characters, with one of the bird-care words. */
  predicate SpecLine(line: string)
  {
    |line| > 10 && ContainsAny(LowerStr(line), SpecWords)
  }

  /** A postcode line holds a code, so it is never taken for a person or a street. */
  lemma CityLineHasCode(line: string)
    ensures CityLine(line) ==> HasCode(line)
  {
    var m := (k: nat) => CodeCityAt(line, k);
    if CityLine(line) {
      var k := Search(|line|, 0, m).value.0;
      assert CodeCityAt(line, k).Some?;
      var ends := Greedy(line, k, IsDigit, 4, 5);
      var j := FirstOkAt(ends, BlanksThenCity(line));
      assert DigitsAt(line, k, 4);
    }
  }

  /** A line that becomes the street while none has been found: street-like and longer than five characters. */
  predicate StreetCandidate(line: string)
  {
    StreetLike(line) && |line| > 5
  }

  // ---------------------------------------------------------------------------
  // The line loop of parse_kml_description and parse_description_text

  /** What the line loop has collected so far. */
  datatype Found = Found(name: string, contact: string, street: string, city: string, address: string, specs: seq<string>)

  const NothingFound: Found := Found("", "", "", "", "", [])

  /** `f"{street}, {city}".strip(', ')`. */
  function JoinedAddress(street: string, city: string): string
  {
    StripChars(street + ", " + city, {',', ' '})
  }

  /**
   * The tests every line past the opening ones goes through, the first that
   * applies deciding: the first street, a postcode line (which completes the
   * address with the street found so far), a specialization line.
   */
  function BodyLine(found: Found, line: string): Found
  {
    if StreetCandidate(line) && found.street == "" then found.(street := line)
    else if CityLine(line) then found.(city := line, address := JoinedAddress(found.street, line))
    else if SpecLine(line) then found.(specs := found.specs + [line])
    else found
  }

  /** Line `i` of parse_kml_description: the first line is the contact person when it has no postcode and no '@'. */
  function KmlLine(found: Found, i: nat, line: string): Found
  {
    if i == 0 && PersonLike(line) then found.(contact := line) else BodyLine(found, line)
  }

  /** parse_kml_description's loop over `lines`. */
  function KmlScan(lines: seq<string>): Found
  {
    if lines == [] then NothingFound
    else KmlLine(KmlScan(lines[..|lines| - 1]), |lines| - 1, lines[|lines| - 1])
  }

  /**
   * Line `i` of parse_description_text: the first line is the organisation
   * when it names one, else a contact person; the second line is the contact
   * person after an organisation when it has no postcode, '@' or phone label.
   */
  function DescriptionLine(found: Found, i: nat, line: string): Found
  {
    if i == 0 then
      if ContainsAny(LowerStr(line), OrgWords) then found.(name := line)
      else if PersonLike(line) then found.(contact := line)
      else found
    else if i == 1 && found.name != "" && found.contact == "" && PersonLike(line) && !HasContactLabel(line) then
      found.(contact := line)
    else BodyLine(found, line)
  }

  /** parse_description_text's loop over `lines`. */
  function DescriptionScan(lines: seq<string>): Found
  {
    if lines == [] then NothingFound
    else DescriptionLine(DescriptionScan(lines[..|lines| - 1]), |lines| - 1, lines[|lines| - 1])
  }

  /**
   * The loop of parse_kml_description. The lines come stripped already, so the
   * loop's own `line.strip()` leaves them as they are.
   */
  method ScanKml(lines: seq<string>) returns (found: Found)
    ensures found == KmlScan(lines)
  {
    found := NothingFound;
    for i := 0 to |lines|
      invariant found == KmlScan(lines[..i])
    {
      KmlScanPrefix(lines, i);
      found := ReadKmlLine(found, i, lines[i]);
    }
    assert lines[..|lines|] == lines;
  }

  lemma KmlScanPrefix(lines: seq<string>, i: nat)
    requires i < |lines|
    ensures KmlScan(lines[..i + 1]) == KmlLine(KmlScan(lines[..i]), i, lines[i])
  {
    assert lines[..i + 1][..i] == lines[..i];
  }

  /** The body of parse_kml_description's loop: line `i` read into what was found so far. */
  method ReadKmlLine(found: Found, i: nat, line: string) returns (next: Found)
    ensures next == KmlLine(found, i, line)
  {
    next := found;
    if i == 0 && PersonLike(line) {
      next := found.(contact := line);
      return;
    }
    if StreetLike(line) && found.street == "" && |line| > 5 {
      next := found.(street := line);
      return;
    }
    if CityLine(line) {
      next := found.(city := line, address := JoinedAddress(found.street, line));
      return;
    }
    if SpecLine(line) {
      next := found.(specs := found.specs + [line]);
    }
  }

  /** The loop of parse_description_text. */
  method ScanDescription(lines: seq<string>) returns (found: Found)
    ensures found == DescriptionScan(lines)
  {
    found := NothingFound;
    for i := 0 to |lines|
      invariant found == DescriptionScan(lines[..i])
    {
      DescriptionScanPrefix(lines, i);
      found := ReadDescriptionLine(found, i, lines[i]);
    }
    assert lines[..|lines|] == lines;
  }

  lemma DescriptionScanPrefix(lines: seq<string>, i: nat)
    requires i < |lines|
    ensures DescriptionScan(lines[..i + 1]) == DescriptionLine(DescriptionScan(lines[..i]), i, lines[i])
  {
    assert lines[..i + 1][..i] == lines[..i];
  }

  /** The body of parse_description_text's loop: line `i` read into what was found so far. */
  method ReadDescriptionLine(found: Found, i: nat, line: string) returns (next: Found)
    ensures next == DescriptionLine(found, i, line)
  {
    next := found;
    if i == 0 {
      if ContainsAny(LowerStr(line), OrgWords) {
        next := found.(name := line);
      } else if PersonLike(line) {
        next := found.(contact := line);
      }
      return;
    }
    if i == 1 && found.name != "" && found.contact == "" {
      if PersonLike(line) && !HasContactLabel(line) {
        next := found.(contact := line);
        return;
      }
    }
    if StreetLike(line) && found.street == "" && |line| > 5 {
      next := found.(street := line);
      return;
    }
    if CityLine(line) {
      next := found.(city := line, address := JoinedAddress(found.street, line));
      return;
    }
    if SpecLine(line) {
      next := found.(specs := found.specs + [line]);
    }
  }

  /** `for line in lines: if test(line): ... break`: the first line that passes. */
  method FirstLineWith(lines: seq<string>, test: string -> bool) returns (line: Option<string>)
    ensures line == FirstWhere(lines, test)
  {
    for i := 0 to |lines|
      invariant forall k | 0 <= k < i :: !test(lines[k])
    {
      if test(lines[i]) {
        FirstWhereAt(lines, i, test);
        return Some(lines[i]);
      }
    }
    return None;
  }

  // ---------------------------------------------------------------------------
  // Building the entry

  /** The address when no postcode line completed it: the street, then the postcode line or else `codeLine`, joined by ", ". */
  function FallbackAddress(found: Found, codeLine: Option<string>): string
  {
    var street := if found.street != "" then [found.street] else [];
    var city := if found.city != "" then [found.city] else if codeLine.Some? then [codeLine.value] else [];
    Join(street + city, ", ")
  }

  /** `full_address` after the loop: the completed address, or the fallback with the first line that holds a code. */
  function FullAddress(found: Found, lines: seq<string>): string
  {
    if found.address != "" then found.address else FallbackAddress(found, FirstWhere(lines, HasCode))
  }

  /** The collected lines joined by ", ", without a trailing comma. */
  function Specialization(specs: seq<string>): (r: string)
  {
    var joined := Join(specs, ", ");
    if EndsWith(joined, ",") then joined[..|joined| - 1] else joined
  }

  /** `" | ".join(notes) + " | "`. */
  function Note(notes: seq<string>): (r: string)
    ensures EndsWith(r, " | ")
  {
    EndsWithAppend(Join(notes, " | "), " | ");
    Join(notes, " | ") + " | "
  }

  /** The fields every parsed entry has. */
  const BaseKeys: set<string> := {"name", "specialization", "address", "phone", "plz", "plz_prefix", "region", "country"}

  /** The eight fields every entry has. */
  function BaseEntry(name: string, specialization: string, address: string, phone: string, info: PlzInfo): Record
  {
    map[
      "name" := Str(name), "specialization" := Str(specialization), "address" := Str(address),
      "phone" := Str(phone), "plz" := Str(info.plz), "plz_prefix" := Str(info.prefix),
      "region" := Str(info.region), "country" := Str(info.country)]
  }

  /** `if value: entry[key] = value`. */
  function WithText(entry: Record, key: string, value: string): Record
  {
    if value != "" then entry[key := Str(value)] else entry
  }

  /**
   * The entry the parsers build: the eight base fields, then email and
   * website when found, then the note when there is something to note.
   */
  function StationEntry(name: string, specialization: string, address: string, contact: Contact, info: PlzInfo, notes: seq<string>): Record
  {
    var base := BaseEntry(name, specialization, address, contact.phone, info);
    var withSite := WithText(WithText(base, "email", contact.email), "website", contact.website);
    if notes != [] then withSite["note" := Str(Note(notes))] else withSite
  }

  /** The keys of an entry: the base ones, plus email, website and note exactly when each has something to hold. */
  function EntryKeys(contact: Contact, noted: bool): set<string>
  {
    BaseKeys + (if contact.email != "" then {"email"} else {}) + (if contact.website != "" then {"website"} else {})
      + (if noted then {"note"} else {})
  }

  /** The note is the one optional key that depends on `noted`. */
  lemma NoteKeyed(contact: Contact, noted: bool)
    ensures "note" in EntryKeys(contact, noted) <==> noted
  {
    assert "note" !in BaseKeys;
  }

  /** Every field holds text. */
  predicate AllText(entry: Record)
  {
    forall key | key in entry :: entry[key].Str?
  }

  lemma BaseEntryFields(name: string, specialization: string, address: string, phone: string, info: PlzInfo)
    ensures var e := BaseEntry(name, specialization, address, phone, info);
      e.Keys == BaseKeys && AllText(e) && e["name"] == Str(name) && e["address"] == Str(address) && e["phone"] == Str(phone)
  {
  }

  lemma WithTextFields(entry: Record, key: string, value: string)
    requires AllText(entry)
    ensures var e := WithText(entry, key, value);
      e.Keys == entry.Keys + (if value != "" then {key} else {}) && AllText(e)
      && forall k | k in entry && k != key :: e[k] == entry[k]
  {
  }

  /**
   * An entry holds text in every field, its keys are the base ones plus the
   * optional ones that have a value, and a note always ends in " | ".
   */
  lemma StationEntryFields(name: string, specialization: string, address: string, contact: Contact, info: PlzInfo, notes: seq<string>)
    ensures StationEntry(name, specialization, address, contact, info, notes).Keys == EntryKeys(contact, notes != [])
    ensures AllText(StationEntry(name, specialization, address, contact, info, notes))
    ensures var e := StationEntry(name, specialization, address, contact, info, notes);
      e["name"] == Str(name) && e["address"] == Str(address) && e["phone"] == Str(contact.phone)
    ensures var e := StationEntry(name, specialization, address, contact, info, notes);
      "note" in e ==> e["note"] == Str(Note(notes)) && EndsWith(e["note"].s, " | ")
  {
    var base := BaseEntry(name, specialization, address, contact.phone, info);
    BaseEntryFields(name, specialization, address, contact.phone, info);
    var withEmail := WithText(base, "email", contact.email);
    WithTextFields(base, "email", contact.email);
    var withSite := WithText(withEmail, "website", contact.website);
    WithTextFields(withEmail, "website", contact.website);
    NoteIsOptional();
    assert "note" !in withSite;
  }

  /** "note" is none of the base keys and neither of the other optional ones. */
  lemma NoteIsOptional()
    ensures "note" !in BaseKeys && "note" != "email" && "note" != "website"
  {
  }

  /** The contact person goes into the display name when it differs from the name. */
  function DisplayName(name: string, person: string): string
  {
    if person != "" && person != name then name + " (" + person + ")" else name
  }

  /** The note parts: the fax number when there is one, then the contact person when `person` is to be noted. */
  function NoteParts(fax: string, person: string, noted: bool): seq<string>
  {
    (if fax != "" then ["Fax: " + fax] else []) + (if noted then ["Kontakt: " + person] else [])
  }

  /**
   * The entry from what the loop found, the address and the name: the
   * address falls back to the first line cleaned, and the postcode is looked
   * for in the address or else in the whole text.
   */
  function ParsedEntry(text: string, lines: seq<string>, found: Found, full: string, name: string, person: string, noted: bool): Record
    requires lines != []
  {
    var contact := ExtractContactInfo(text);
    StationEntry(CleanText(DisplayName(name, person)), Specialization(found.specs),
      if full != "" then full else CleanText(lines[0]), contact,
      ExtractPlzInfo(if full != "" then full else text), NoteParts(contact.fax, person, noted))
  }

  /**
   * `parse_kml_description(name, description)`, where `text` is the
   * description's text once its markup is removed.
   */
  function KmlEntry(name: string, description: string, text: string): Option<Record>
  {
    if name == "" || description == "" then None
    else
      var lines := NonBlankLines(text);
      if lines == [] then None
      else
        var found := KmlScan(lines);
        Some(ParsedEntry(text, lines, found, FullAddress(found, lines), name, found.contact,
          found.contact != "" && found.contact != name))
  }

  /** `full_address` as the code computes it: the line with a code is searched for only when no postcode line was found. */
  method CompleteAddress(found: Found, lines: seq<string>) returns (full: string)
    ensures full == FullAddress(found, lines)
  {
    full := found.address;
    if full == "" {
      var codeLine := None;
      if found.city == "" {
        codeLine := FirstLineWith(lines, HasCode);
      }
      full := FallbackAddress(found, codeLine);
    }
  }

  method ParseKmlDescription(name: string, description: string, text: string) returns (entry: Option<Record>)
    ensures entry == KmlEntry(name, description, text)
  {
    if name == "" || description == "" {
      return None;
    }
    var lines := NonBlankLines(text);
    if lines == [] {
      return None;
    }
    var found := ScanKml(lines);
    var full := CompleteAddress(found, lines);
    entry := Some(ParsedEntry(text, lines, found, full, name, found.contact, found.contact != "" && found.contact != name));
  }

  /** The name and contact person of a description: a lone contact person becomes the name; with neither, the first line is the name. */
  function DescriptionNames(found: Found, lines: seq<string>): (string, string)
    requires lines != []
  {
    if found.name != "" then (found.name, found.contact)
    else if found.contact != "" then (found.contact, "")
    else (lines[0], "")
  }

  /**
   * The Kontakt note's guard in parse_description_text: a person other than
   * the name, occurring neither in the name nor in the display name.
   */
  predicate NotedPerson(name: string, person: string)
  {
    person != "" && person != name && !(Contains(name, person) || Contains(DisplayName(name, person), person))
  }

  /** `parse_description_text(description)`. */
  function DescriptionEntry(description: string): Option<Record>
  {
    var lines := NonBlankLines(description);
    if |lines| < 2 then None
    else
      var found := DescriptionScan(lines);
      var names := DescriptionNames(found, lines);
      Some(ParsedEntry(description, lines, found, FullAddress(found, lines), names.0, names.1, NotedPerson(names.0, names.1)))
  }

  method ParseDescriptionText(description: string) returns (entry: Option<Record>)
    ensures entry == DescriptionEntry(description)
  {
    var lines := NonBlankLines(description);
    if |lines| < 2 {
      return None;
    }
    var found := ScanDescription(lines);
    var name, person := found.name, found.contact;
    if name == "" {
      if person != "" {
        name := person;
        person := "";
      } else {
        name := lines[0];
      }
    }
    var full := CompleteAddress(found, lines);
    entry := Some(ParsedEntry(description, lines, found, full, name, person, NotedPerson(name, person)));
  }

  const MarkerSpecWords: seq<string> := ["spezialisiert", "aufnahme", "pflege", "arten", "v\U{F6}gel", "greif", "eule", "sing"]

  predicate MarkerSpecLine(line: string)
  {
    ContainsAny(LowerStr(line), MarkerSpecWords)
  }

  /** The cleaned line, or "" when there is none. */
  function CleanedOr(line: Option<string>): string
  {
    if line.Some? then CleanText(line.value) else ""
  }

  /** The marker's address: the first line after the name with a code, else the second line. */
  function MarkerAddress(lines: seq<string>): string
    requires lines != []
  {
    var coded := CleanedOr(FirstWhere(lines[1..], HasCode));
    if coded == "" && |lines| > 1 then CleanText(lines[1]) else coded
  }

  /** `parse_marker_info(info)`: the note it prepares stays empty, so the entry never has one. */
  function MarkerEntry(info: string): Option<Record>
  {
    if info == "" || |Strip(info)| < 10 then None
    else
      var lines := NonBlankLines(info);
      if lines == [] then None
      else
        var address := MarkerAddress(lines);
        Some(StationEntry(CleanText(lines[0]), CleanedOr(FirstWhere(lines, MarkerSpecLine)), address,
          ExtractContactInfo(info), ExtractPlzInfo(address), []))
  }

  method ParseMarkerInfo(info: string) returns (entry: Option<Record>)
    ensures entry == MarkerEntry(info)
  {
    if info == "" || |Strip(info)| < 10 {
      return None;
    }
    var lines := NonBlankLines(info);
    if lines == [] {
      return None;
    }
    var contact := ExtractContactInfo(info);
    var coded := FirstLineWith(lines[1..], HasCode);
    var address := CleanedOr(coded);
    if address == "" && |lines| > 1 {
      address := CleanText(lines[1]);
    }
    var spec := FirstLineWith(lines, MarkerSpecLine);
    entry := Some(StationEntry(CleanText(lines[0]), CleanedOr(spec), address, contact, ExtractPlzInfo(address), []));
  }

  // ---------------------------------------------------------------------------
  // What the line loop finds

  /** The line found, or "" when there is none. */
  function OrEmpty(line: Option<string>): string
  {
    if line.Some? then line.value else ""
  }

  /** In parse_kml_description the contact person is the first line, when that line has no postcode and no '@'. */
  lemma {:induction false} KmlContactIsFirstLine(lines: seq<string>)
    ensures KmlScan(lines).contact == if lines != [] && PersonLike(lines[0]) then lines[0] else ""
  {
    if lines != [] {
      var init := lines[..|lines| - 1];
      KmlLineContact(KmlScan(init), |lines| - 1, lines[|lines| - 1]);
      if |lines| > 1 {
        KmlContactIsFirstLine(init);
        assert init[0] == lines[0];
      }
    }
  }

  /** Only the first line can set the contact person. */
  lemma KmlLineContact(found: Found, i: nat, line: string)
    ensures KmlLine(found, i, line).contact == if i == 0 && PersonLike(line) then line else found.contact
  {
    if !(i == 0 && PersonLike(line)) {
      assert KmlLine(found, i, line) == BodyLine(found, line);
    }
  }

  /**
   * The street is the first line after the first that is street-like and
   * longer than five characters: the first line is either the contact person
   * or has a postcode or an '@', so it is never the street.
   */
  lemma {:induction false} KmlStreetIsFirstCandidate(lines: seq<string>)
    requires lines != []
    ensures KmlScan(lines).street == OrEmpty(FirstWhere(lines[1..], StreetCandidate))
  {
    var init := lines[..|lines| - 1];
    if |lines| > 1 {
      KmlStreetIsFirstCandidate(init);
      TailSnoc(lines);
      FirstWhereSnoc(init[1..], lines[|lines| - 1], StreetCandidate);
    }
    KmlLineStreet(KmlScan(init), |lines| - 1, lines[|lines| - 1]);
  }

  /** A line past the first becomes the street when none has been found and it is a candidate; the first line never does. */
  lemma KmlLineStreet(found: Found, i: nat, line: string)
    ensures KmlLine(found, i, line).street == if i > 0 && found.street == "" && StreetCandidate(line) then line else found.street
  {
    if i == 0 && PersonLike(line) {
      assert KmlLine(found, i, line).street == found.street;
    } else {
      assert KmlLine(found, i, line) == BodyLine(found, line);
    }
  }

  /** The postcode line kept is the last line with a postcode followed by more text. */
  lemma {:induction false} KmlCityIsLastCityLine(lines: seq<string>)
    ensures KmlScan(lines).city == OrEmpty(LastWhere(lines, CityLine))
  {
    if lines != [] {
      var init := lines[..|lines| - 1];
      KmlCityIsLastCityLine(init);
      KmlLineCity(KmlScan(init), |lines| - 1, lines[|lines| - 1]);
    }
  }

  /** A body line sets the postcode line exactly when it is one. */
  lemma BodyLineCity(found: Found, line: string)
    ensures BodyLine(found, line).city == if CityLine(line) then line else found.city
  {
    CityLineHasCode(line);
  }

  /** In parse_kml_description every line, the first included, sets the postcode line exactly when it is one. */
  lemma KmlLineCity(found: Found, i: nat, line: string)
    ensures KmlLine(found, i, line).city == if CityLine(line) then line else found.city
  {
    CityLineHasCode(line);
    BodyLineCity(found, line);
  }

  /** A line past the first sets the postcode line exactly when it is one; the first line never does. */
  lemma DescriptionLineCity(found: Found, i: nat, line: string)
    ensures DescriptionLine(found, i, line).city == if i > 0 && CityLine(line) then line else found.city
  {
    if i == 0 {
      assert DescriptionLine(found, i, line).city == found.city;
    } else if i == 1 && found.name != "" && found.contact == "" && PersonLike(line) && !HasContactLabel(line) {
      CityLineHasCode(line);
    } else {
      BodyLineCity(found, line);
    }
  }

  /** In parse_description_text the first line never counts as the postcode line: the city is the last postcode line after it. */
  lemma {:induction false} DescriptionCityIsLastCityLine(lines: seq<string>)
    requires lines != []
    ensures DescriptionScan(lines).city == OrEmpty(LastWhere(lines[1..], CityLine))
  {
    var init := lines[..|lines| - 1];
    var last := lines[|lines| - 1];
    DescriptionLineCity(DescriptionScan(init), |lines| - 1, last);
    if |lines| > 1 {
      DescriptionCityIsLastCityLine(init);
      TailSnoc(lines);
      LastWhereSnoc(init[1..], last, CityLine);
    }
  }

  /** Every specialization line collected is a long line of `lines` with a bird-care word. */
  lemma {:induction false} KmlSpecsAreSpecLines(lines: seq<string>)
    ensures forall k | 0 <= k < |KmlScan(lines).specs| :: KmlScan(lines).specs[k] in lines && SpecLine(KmlScan(lines).specs[k])
  {
    if lines != [] {
      var init := lines[..|lines| - 1];
      KmlSpecsAreSpecLines(init);
      assert forall x | x in init :: x in lines;
    }
  }

  // ---------------------------------------------------------------------------
  // What the parsers return

  /**
   * parse_kml_description gives up exactly on a missing name or description
   * or a description without text; otherwise the entry has the base fields
   * plus email, website and note when there is something to put there, the
   * note holding the fax and the contact person, and the name shows the
   * first line in brackets when that line is a contact person other than the name.
   */
  lemma KmlEntryFields(name: string, description: string, text: string)
    ensures KmlEntry(name, description, text).None? <==> name == "" || description == "" || NonBlankLines(text) == []
    ensures KmlEntry(name, description, text).Some? ==>
      var e := KmlEntry(name, description, text).value;
      var lines := NonBlankLines(text);
      var contact := ExtractContactInfo(text);
      var person := if PersonLike(lines[0]) && lines[0] != name then lines[0] else "";
      && e.Keys == EntryKeys(contact, contact.fax != "" || person != "")
      && (forall key | key in e :: e[key].Str?)
      && e["name"] == Str(CleanText(if person != "" then name + " (" + person + ")" else name))
      && e["phone"] == Str(contact.phone)
      && ("note" in e ==> EndsWith(e["note"].s, " | "))
  {
    if KmlEntry(name, description, text).Some? {
      var lines := NonBlankLines(text);
      var found := KmlScan(lines);
      KmlContactIsFirstLine(lines);
      var contact := ExtractContactInfo(text);
      var full := FullAddress(found, lines);
      var noted := found.contact != "" && found.contact != name;
      StationEntryFields(CleanText(DisplayName(name, found.contact)), Specialization(found.specs),
        if full != "" then full else CleanText(lines[0]), contact,
        ExtractPlzInfo(if full != "" then full else text), NoteParts(contact.fax, found.contact, noted));
    }
  }

  /** The Kontakt note's guard never holds: a person other than the name is part of the display name. */
  lemma NoPersonNoted(name: string, person: string)
    ensures !NotedPerson(name, person)
  {
    if person != "" && person != name {
      ContainsMiddle(name + " (", person, ")");
    }
  }

  /**
   * parse_description_text gives up exactly on fewer than two lines, and it
   * never notes the contact person: the person is always part of the display
   * name, so the note holds the fax number alone.
   */
  lemma DescriptionNeverNotesContact(description: string)
    ensures DescriptionEntry(description).None? <==> |NonBlankLines(description)| < 2
    ensures DescriptionEntry(description).Some? ==>
      var e := DescriptionEntry(description).value;
      var fax := ExtractContactInfo(description).fax;
      && ("note" in e <==> fax != "")
      && ("note" in e ==> e["note"] == Str("Fax: " + fax + " | "))
  {
    var lines := NonBlankLines(description);
    if |lines| >= 2 {
      var found := DescriptionScan(lines);
      var names := DescriptionNames(found, lines);
      var (name, person) := names;
      NoPersonNoted(name, person);
      var contact := ExtractContactInfo(description);
      var full := FullAddress(found, lines);
      StationEntryFields(CleanText(DisplayName(name, person)), Specialization(found.specs),
        if full != "" then full else CleanText(lines[0]), contact,
        ExtractPlzInfo(if full != "" then full else description), NoteParts(contact.fax, person, false));
      var notes := NoteParts(contact.fax, person, false);
      assert notes == if contact.fax != "" then ["Fax: " + contact.fax] else [];
      NoteKeyed(contact, notes != []);
    }
  }

  /**
   * parse_marker_info gives up on empty text or text shorter than ten
   * characters once stripped; otherwise the name is the first line cleaned
   * and the entry never has a note.
   */
  lemma MarkerEntryFields(info: string)
    ensures info == "" || |Strip(info)| < 10 ==> MarkerEntry(info).None?
    ensures MarkerEntry(info).Some? ==>
      var e := MarkerEntry(info).value;
      && e.Keys == EntryKeys(ExtractContactInfo(info), false)
      && e["name"] == Str(CleanText(NonBlankLines(info)[0]))
      && e["address"] == Str(MarkerAddress(NonBlankLines(info)))
  {
    if MarkerEntry(info).Some? {
      var lines := NonBlankLines(info);
      var address := MarkerAddress(lines);
      StationEntryFields(CleanText(lines[0]), CleanedOr(FirstWhere(lines, MarkerSpecLine)), address,
        ExtractContactInfo(info), ExtractPlzInfo(address), []);
    }
  }

  // ---------------------------------------------------------------------------
  // The scraper: existing entries, new entries, the KML loop and saving

  /** A placemark of the KML export: its name, its description, and the description's text without markup. */
  datatype Placemark = Placemark(name: string, description: string, text: string)

  /** `entry[key]` for an entry built here, where every field holds text. */
  function EntryText(entry: Record, key: string): string
  {
    if key in entry && entry[key].Str? then entry[key].s else ""
  }

  /**
   * What one placemark adds: its entry when it has a name and a description,
   * parses, and is not a duplicate. A duplicate check that raises lands in the
   * per-placemark handler, so the placemark adds nothing.
   */
  function Accepted(existing: seq<Record>, pm: Placemark): Option<Record>
  {
    if pm.name == "" || pm.description == "" then None
    else
      match KmlEntry(pm.name, pm.description, pm.text)
      case None => None
      case Some(e) =>
        if Duplicate(existing, EntryText(e, "name"), EntryText(e, "address")) == Some(false) then Some(e) else None
  }

  function AcceptedBy(existing: seq<Record>): Placemark -> Option<Record>
  {
    pm => Accepted(existing, pm)
  }

  /** An accepted placemark's entry is the parsed one, and the known entries hold no duplicate of it. */
  lemma AcceptedIsNew(existing: seq<Record>, pm: Placemark)
    requires Accepted(existing, pm).Some?
    ensures KmlEntry(pm.name, pm.description, pm.text) == Accepted(existing, pm)
    ensures var e := Accepted(existing, pm).value;
      Duplicate(existing, EntryText(e, "name"), EntryText(e, "address")) == Some(false)
  {
  }

  /** Every entry the KML loop adds was parsed from one of the placemarks and is no duplicate of a known entry. */
  lemma AcceptedAreNew(existing: seq<Record>, placemarks: seq<Placemark>)
    ensures forall e | e in Keep(placemarks, AcceptedBy(existing)) ::
      && Duplicate(existing, EntryText(e, "name"), EntryText(e, "address")) == Some(false)
      && exists pm | pm in placemarks :: KmlEntry(pm.name, pm.description, pm.text) == Some(e)
  {
    var f := AcceptedBy(existing);
    KeepSound(placemarks, f);
    forall e | e in Keep(placemarks, f)
      ensures Duplicate(existing, EntryText(e, "name"), EntryText(e, "address")) == Some(false)
      ensures exists pm | pm in placemarks :: KmlEntry(pm.name, pm.description, pm.text) == Some(e)
    {
      var pm :| pm in placemarks && f(pm) == Some(e);
      AcceptedIsNew(existing, pm);
    }
  }

  /** `NABUGoogleMapsScraper`: the entries already saved and the entries found in this run. */
  class NabuMapsScraper {
    var data: seq<Record>
    var existingData: seq<Record>

    constructor()
      ensures data == [] && existingData == []
    {
      data := [];
      existingData := [];
    }

    /** `load_existing_data`: `file` is the saved file's content, `None` when it is missing or cannot be read. */
    method LoadExistingData(file: Option<seq<Record>>)
      modifies this
      ensures existingData == (if file.Some? then file.value else old(existingData))
      ensures data == old(data)
    {
      if file.Some? {
        existingData := file.value;
      }
    }

    /** `is_duplicate(name, address)`; `None` when an entry's name or address is not text and the check raises. */
    method IsDuplicate(name: string, address: string) returns (verdict: Option<bool>)
      ensures verdict == Duplicate(existingData, name, address)
    {
      for i := 0 to |existingData|
        invariant Duplicate(existingData[i..], name, address) == Duplicate(existingData, name, address)
      {
        assert existingData[i..][1..] == existingData[i + 1..];
        var existingName := TextField(existingData[i], "name");
        if existingName.None? {
          return None;
        }
        if LowerStr(existingName.value) == LowerStr(name) {
          return Some(true);
        }
        var existingAddress := TextField(existingData[i], "address");
        if existingAddress.None? {
          return None;
        }
        if Contains(LowerStr(address), LowerStr(existingAddress.value)) && |existingAddress.value| > 10 {
          return Some(true);
        }
      }
      return Some(false);
    }

    /** `parse_kml_data`: every placemark's new entry is appended, in order. */
    method ParseKmlData(placemarks: seq<Placemark>)
      modifies this
      ensures data == old(data) + Keep(placemarks, AcceptedBy(existingData))
      ensures existingData == old(existingData)
    {
      ghost var before := data;
      ghost var kept: seq<Record> := [];
      ghost var accepted := AcceptedBy(existingData);
      for i := 0 to |placemarks|
        invariant data == before + kept
        invariant kept == Keep(placemarks[..i], accepted)
        invariant existingData == old(existingData)
      {
        var entry := ParsePlacemark(placemarks[i]);
        KeepStep(kept, placemarks, i, accepted, entry);
        if entry.Some? {
          AppendAssoc(before, kept, [entry.value]);
          data := data + [entry.value];
          kept := kept + [entry.value];
        }
      }
      assert placemarks[..|placemarks|] == placemarks;
    }

    /** One placemark of `parse_kml_data`: its entry when it is to be appended. */
    method ParsePlacemark(pm: Placemark) returns (entry: Option<Record>)
      ensures entry == Accepted(existingData, pm) == AcceptedBy(existingData)(pm)
    {
      if pm.name == "" || pm.description == "" {
        return None;
      }
      entry := ParseKmlDescription(pm.name, pm.description, pm.text);
      if entry.Some? {
        var duplicate := IsDuplicate(EntryText(entry.value, "name"), EntryText(entry.value, "address"));
        if duplicate != Some(false) {
          entry := None;
        }
      }
    }

    /**
     * `save_data`: what is written to the file, `None` when no new entry was
     * found and nothing is written; otherwise the known entries, then the new ones.
     */
    method SaveData() returns (written: Option<seq<Record>>)
      ensures written.None? <==> data == []
      ensures written.Some? ==> written.value == existingData + data
    {
      if data == [] {
        return None;
      }
      written := Some(existingData + data);
    }
  }
}

/** The six HR pillars: a fixed table between the key a form or chart bar
    uses (`talent-acquisition`) and the name an entry stores (`Talent
    Acquisition`), with a slug fallback for names outside the table. */
module Pillars {
  import opened Wrappers
  import opened Text

  /** The six pillars the two lookup tables of the source list. */
  datatype Pillar =
    | TalentAcquisition
    | LearningDevelopment
    | PerformanceManagement
    | WorkforcePlanning
    | EmployeeExperience
    | HrOperations

  /** The key of a pillar: the value of the form's select and of a chart bar's `data-pillar`. */
  function Key(p: Pillar): string {
    match p
    case TalentAcquisition => "talent-acquisition"
    case LearningDevelopment => "learning-development"
    case PerformanceManagement => "performance-management"
    case WorkforcePlanning => "workforce-planning"
    case EmployeeExperience => "employee-experience"
    case HrOperations => "hr-operations"
  }

  /** The display name of a pillar: what an entry stores in `pillar`. */
  function Name(p: Pillar): string {
    match p
    case TalentAcquisition => "Talent Acquisition"
    case LearningDevelopment => "Learning & Development"
    case PerformanceManagement => "Performance Management"
    case WorkforcePlanning => "Workforce Planning"
    case EmployeeExperience => "Employee Experience"
    case HrOperations => "HR Operations"
  }

  /** `pillarNames[key]` on the key table: the pillar with this key, if any. */
  function PillarOfKey(key: string): (r: Option<Pillar>)
    ensures r.Some? ==> Key(r.value) == key
  {
    if key == Key(TalentAcquisition) then Some(TalentAcquisition)
    else if key == Key(LearningDevelopment) then Some(LearningDevelopment)
    else if key == Key(PerformanceManagement) then Some(PerformanceManagement)
    else if key == Key(WorkforcePlanning) then Some(WorkforcePlanning)
    else if key == Key(EmployeeExperience) then Some(EmployeeExperience)
    else if key == Key(HrOperations) then Some(HrOperations)
    else None
  }

  /** `pillarKeys[name]` on the name table: the pillar with this name, if any. */
  function PillarOfName(name: string): (r: Option<Pillar>)
    ensures r.Some? ==> Name(r.value) == name
  {
    if name == Name(TalentAcquisition) then Some(TalentAcquisition)
    else if name == Name(LearningDevelopment) then Some(LearningDevelopment)
    else if name == Name(PerformanceManagement) then Some(PerformanceManagement)
    else if name == Name(WorkforcePlanning) then Some(WorkforcePlanning)
    else if name == Name(EmployeeExperience) then Some(EmployeeExperience)
    else if name == Name(HrOperations) then Some(HrOperations)
    else None
  }

  /** `getPillarDisplayName`: the table's name for a known key; any other key unchanged. */
  function GetPillarDisplayName(key: string): string {
    match PillarOfKey(key)
    case Some(p) => Name(p)
    case None => key
  }

  /** `getPillarKey`: the table's key for a known name; otherwise the name
      lower-cased with every run of whitespace turned into one hyphen. */
  function GetPillarKey(name: string): string {
    match PillarOfName(name)
    case Some(p) => Key(p)
    case None => Slug(name)
  }

  /** `name.toLowerCase().replace(/\s+/g, '-')`. */
  function Slug(name: string): string {
    Hyphenate(Lower(name))
  }

  /** `replace(/\s+/g, '-')`: each maximal run of whitespace becomes one hyphen. */
  function Hyphenate(s: string): string {
    if s == [] then []
    else if IsWhitespace(s[0]) then "-" + Hyphenate(TrimStart(s[1..]))
    else [s[0]] + Hyphenate(s[1..])
  }

  predicate NoWhitespace(t: string) {
    forall i :: 0 <= i < |t| ==> !IsWhitespace(t[i])
  }

  predicate NoUpper(t: string) {
    forall i :: 0 <= i < |t| ==> !IsUpper(t[i])
  }

  /** What a slug looks like: no upper-case letter and no whitespace. */
  predicate IsSlugForm(t: string) {
    NoUpper(t) && NoWhitespace(t)
  }

  /** Hyphenating leaves no whitespace and adds no upper-case letter. */
  lemma HyphenateShape(s: string)
    ensures NoWhitespace(Hyphenate(s))
    ensures NoUpper(s) ==> NoUpper(Hyphenate(s))
  {
    HyphenateLeavesNoWhitespace(s);
    if NoUpper(s) {
      HyphenateAddsNoUpper(s);
    }
  }

  lemma {:induction false} HyphenateLeavesNoWhitespace(s: string)
    ensures NoWhitespace(Hyphenate(s))
  {
    if s != [] {
      var rest := if IsWhitespace(s[0]) then TrimStart(s[1..]) else s[1..];
      var c := if IsWhitespace(s[0]) then '-' else s[0];
      assert Hyphenate(s) == [c] + Hyphenate(rest);
      HyphenateLeavesNoWhitespace(rest);
      ConsNoWhitespace(c, Hyphenate(rest));
    }
  }

  lemma {:induction false} HyphenateAddsNoUpper(s: string)
    requires NoUpper(s)
    ensures NoUpper(Hyphenate(s))
  {
    if s != [] {
      var rest := if IsWhitespace(s[0]) then TrimStart(s[1..]) else s[1..];
      var c := if IsWhitespace(s[0]) then '-' else s[0];
      assert Hyphenate(s) == [c] + Hyphenate(rest);
      SuffixNoUpper(s, |s| - |rest|);
      HyphenateAddsNoUpper(rest);
      ConsNoUpper(c, Hyphenate(rest));
    }
  }

  lemma ConsNoWhitespace(c: char, t: string)
    requires !IsWhitespace(c) && NoWhitespace(t)
    ensures NoWhitespace([c] + t)
  {
    forall i | 0 <= i < |[c] + t| ensures !IsWhitespace(([c] + t)[i]) {
      if i > 0 {
        assert ([c] + t)[i] == t[i - 1];
      }
    }
  }

  lemma ConsNoUpper(c: char, t: string)
    requires !IsUpper(c) && NoUpper(t)
    ensures NoUpper([c] + t)
  {
    forall i | 0 <= i < |[c] + t| ensures !IsUpper(([c] + t)[i]) {
      if i > 0 {
        assert ([c] + t)[i] == t[i - 1];
      }
    }
  }

  lemma SuffixNoUpper(s: string, k: int)
    requires 0 <= k <= |s| && NoUpper(s)
    ensures NoUpper(s[k..])
  {
    forall i | 0 <= i < |s[k..]| ensures !IsUpper(s[k..][i]) {
      assert s[k..][i] == s[k + i];
    }
  }

  lemma SlugIsSlugForm(name: string)
    ensures IsSlugForm(Slug(name))
  {
    HyphenateShape(Lower(name));
  }

  /** A run of whitespace between two pieces becomes exactly one hyphen. */
  lemma {:induction false} HyphenateRun(a: string, w: string, b: string)
    requires NoWhitespace(a)
    requires |w| > 0 && forall i :: 0 <= i < |w| ==> IsWhitespace(w[i])
    requires b == [] || !IsWhitespace(b[0])
    ensures Hyphenate(a + w + b) == a + "-" + Hyphenate(b)
  {
    if a == [] {
      assert a + w + b == w + b;
      HyphenateRunStart(w, b);
    } else {
      var s := a + w + b;
      assert s[0] == a[0] && s[1..] == a[1..] + w + b;
      HyphenateRun(a[1..], w, b);
      assert a == [a[0]] + a[1..];
    }
  }

  lemma HyphenateRunStart(w: string, b: string)
    requires |w| > 0 && forall i :: 0 <= i < |w| ==> IsWhitespace(w[i])
    requires b == [] || !IsWhitespace(b[0])
    ensures Hyphenate(w + b) == "-" + Hyphenate(b)
  {
    assert IsWhitespace((w + b)[0]) by {
      assert (w + b)[0] == w[0];
    }
    assert (w + b)[1..] == w[1..] + b;
    forall i | 0 <= i < |w[1..]| ensures IsWhitespace(w[1..][i]) {
      assert w[1..][i] == w[i + 1];
    }
    TrimRun(w[1..], b);
  }

  lemma {:induction false} TrimRun(w: string, b: string)
    requires forall i :: 0 <= i < |w| ==> IsWhitespace(w[i])
    requires b == [] || !IsWhitespace(b[0])
    ensures TrimStart(w + b) == b
  {
    if w != [] {
      assert (w + b)[1..] == w[1..] + b;
      TrimRun(w[1..], b);
    }
  }

  /** Text already in slug form is its own slug... */
  lemma {:induction false} SlugOfSlugForm(t: string)
    requires IsSlugForm(t)
    ensures Slug(t) == t
  {
    assert Lower(t) == t;
    HyphenateNoWhitespace(t);
  }

  lemma {:induction false} HyphenateNoWhitespace(t: string)
    requires NoWhitespace(t)
    ensures Hyphenate(t) == t
  {
    if t != [] {
      HyphenateNoWhitespace(t[1..]);
    }
  }

  /** ...so slugging twice is slugging once. */
  lemma SlugIdempotent(name: string)
    ensures Slug(Slug(name)) == Slug(name)
  {
    SlugIsSlugForm(name);
    SlugOfSlugForm(Slug(name));
  }

  /** Each table lists every pillar once: looking up a pillar's own key or
      name finds that pillar (the six keys, and the six names, differ in
      their first character). */
  lemma LookupsFindThePillar(p: Pillar)
    ensures PillarOfKey(Key(p)) == Some(p)
    ensures PillarOfName(Name(p)) == Some(p)
  {
    KeyFindsPillar(p);
    NameFindsPillar(p);
  }

  lemma KeyFindsPillar(p: Pillar)
    ensures PillarOfKey(Key(p)) == Some(p)
  {
    assert Key(p)[0] == Key(p)[0];
  }

  lemma NameFindsPillar(p: Pillar)
    ensures PillarOfName(Name(p)) == Some(p)
  {
    assert Name(p)[0] == Name(p)[0];
  }

  /** Every key is in slug form; every name starts with an upper-case letter. */
  lemma TableShapes(p: Pillar)
    ensures IsSlugForm(Key(p))
    ensures |Name(p)| > 0 && IsUpper(Name(p)[0])
  {
    KeyChars(p);
    SlugFormKey(Key(p));
    NameShape(p);
  }

  lemma NameShape(p: Pillar)
    ensures |Name(p)| > 0 && IsUpper(Name(p)[0])
  {
  }

  predicate SlugChar(c: char) {
    'a' <= c <= 'z' || c == '-'
  }

  /** The keys are written with lower-case letters and hyphens only. */
  lemma KeyChars(p: Pillar)
    ensures forall c :: c in Key(p) ==> SlugChar(c)
  {
    if p.TalentAcquisition? || p.LearningDevelopment? || p.PerformanceManagement? {
      FirstKeysChars(p);
    } else {
      LastKeysChars(p);
    }
  }

  lemma FirstKeysChars(p: Pillar)
    requires p.TalentAcquisition? || p.LearningDevelopment? || p.PerformanceManagement?
    ensures forall c :: c in Key(p) ==> SlugChar(c)
  {
  }

  lemma LastKeysChars(p: Pillar)
    requires p.WorkforcePlanning? || p.EmployeeExperience? || p.HrOperations?
    ensures forall c :: c in Key(p) ==> SlugChar(c)
  {
  }

  /** A lower-case ASCII word with hyphens is in slug form. */
  lemma SlugFormKey(k: string)
    requires forall c :: c in k ==> SlugChar(c)
    ensures IsSlugForm(k)
  {
    forall i | 0 <= i < |k| ensures !IsUpper(k[i]) && !IsWhitespace(k[i]) {
      assert k[i] in k;
    }
  }

  /** Slug-form text is never one of the table's names. */
  lemma SlugFormIsNotAName(t: string)
    requires IsSlugForm(t)
    ensures PillarOfName(t) == None
  {
    if PillarOfName(t).Some? {
      TableShapes(PillarOfName(t).value);
    }
  }

  /** The display name of each of the six keys maps back to that key. */
  lemma KeyOfDisplayName(p: Pillar)
    ensures GetPillarKey(GetPillarDisplayName(Key(p))) == Key(p)
    ensures GetPillarDisplayName(GetPillarKey(Name(p))) == Name(p)
  {
    LookupsFindThePillar(p);
  }

  /** A key outside the table is displayed as itself, and it comes back
      unchanged when it is already a slug. */
  lemma UnknownKeyRoundTrip(k: string)
    requires PillarOfKey(k) == None
    ensures GetPillarDisplayName(k) == k
    ensures IsSlugForm(k) ==> GetPillarKey(GetPillarDisplayName(k)) == k
  {
    if IsSlugForm(k) {
      SlugFormIsNotAName(k);
      SlugOfSlugForm(k);
    }
  }

  /** Every key the charts group by is in slug form, whatever the stored name. */
  lemma PillarKeyIsSlugForm(name: string)
    ensures IsSlugForm(GetPillarKey(name))
  {
    match PillarOfName(name)
    case Some(p) => TableShapes(p);
    case None => SlugIsSlugForm(name);
  }

  /** Applying `getPillarKey` to its own result changes nothing. */
  lemma PillarKeyIdempotent(name: string)
    ensures GetPillarKey(GetPillarKey(name)) == GetPillarKey(name)
  {
    var k := GetPillarKey(name);
    PillarKeyIsSlugForm(name);
    SlugFormIsNotAName(k);
    SlugOfSlugForm(k);
  }

  // ---------------------------------------------------------------------------
  // The lookups as the source writes them. `pillarKeys[pillarName]` reads a
  // plain object literal, so a name that is a property every object inherits
  // finds that property (a function, or Object.prototype for "__proto__")
  // instead of missing, and `||` returns it.

  /** What a property read on an object literal can give. */
  datatype JsLookup = Str(s: string) | Inherited(name: string)

  /** The properties every object literal inherits from Object.prototype. */
  const InheritedNames: set<string> := {
    "constructor", "hasOwnProperty", "isPrototypeOf", "propertyIsEnumerable",
    "toString", "toLocaleString", "valueOf", "__proto__",
    "__defineGetter__", "__defineSetter__", "__lookupGetter__", "__lookupSetter__"
  }

  /** `getPillarKey` exactly as written, inherited properties included. */
  function GetPillarKeyAsWritten(name: string): JsLookup {
    if PillarOfName(name).Some? then Str(Key(PillarOfName(name).value))
    else if name in InheritedNames then Inherited(name)
    else Str(Slug(name))
  }

  /** For the stored pillar "toString" the source returns Object's `toString`
      function instead of the slug "tostring": the history filter never keeps
      such an entry and the chart groups it under the function's text. */
  lemma AsWrittenInheritedName()
    ensures GetPillarKeyAsWritten("toString") == Inherited("toString")
    ensures GetPillarKeyAsWritten("toString") != Str(GetPillarKey("toString"))
    ensures GetPillarKey("toString") == "tostring"
  {
    ToStringIsInherited();
    ToStringSlug();
  }

  lemma ToStringIsInherited()
    ensures GetPillarKeyAsWritten("toString") == Inherited("toString")
  {
    ToStringNotAName();
  }

  lemma ToStringSlug()
    ensures GetPillarKey("toString") == "tostring"
  {
    ToStringNotAName();
    SlugOfToString();
  }

  lemma ToStringNotAName()
    ensures PillarOfName("toString") == None
  {
  }

  lemma SlugOfToString()
    ensures Slug("toString") == "tostring"
  {
    LowerToString();
    LowerToStringIsSlugForm();
    HyphenateNoWhitespace("tostring");
  }

  lemma LowerToStringIsSlugForm()
    ensures IsSlugForm("tostring")
  {
    SlugFormKey("tostring");
  }

  lemma LowerToString()
    ensures Lower("toString") == "tostring"
  {
  }

  /** The corrected lookup, used everywhere else, agrees with the source on
      every name that is not an inherited property. */
  lemma AsWrittenAgreesElsewhere(name: string)
    requires name !in InheritedNames
    ensures GetPillarKeyAsWritten(name) == Str(GetPillarKey(name))
  {
  }
}

/** The facility finder of MapScreen.tsx: the facilities found around the
    user, the search box with its capped result list, the type filter
    behind the map key, and the colour and icon each marker gets. */
module MapScreen {
  import opened Lists
  import opened Text

  /** `MedicalFacility`, without its coordinates and distance. */
  datatype Facility = Facility(id: string, name: string, address: string, kind: string)

  /** One entry of `MEDICAL_TYPES`. */
  datatype TypeInfo = TypeInfo(icon: string, title: string, color: string)

  /** `MEDICAL_TYPES`, keyed by the OpenStreetMap `amenity` value. */
  const MedicalTypes: map<string, TypeInfo> := map[
    "hospital" := TypeInfo("\U{1F3E5}", "Hospitals", "#FF3B30"),
    "clinic" := TypeInfo("\U{1F3E5}", "Clinics", "#007AFF"),
    "doctors" := TypeInfo("\U{1F468}\U{200D}\U{2695}\U{FE0F}", "Doctors", "#34C759"),
    "dentist" := TypeInfo("\U{1F9B7}", "Dentists", "#FF9500"),
    "pharmacy" := TypeInfo("\U{1F48A}", "Pharmacies", "#AF52DE"),
    "veterinary" := TypeInfo("\U{1F43E}", "Veterinary", "#8E8E93")
  ]

  /** The marker colour of a type missing from the table. */
  const DefaultColor: string := "#007AFF"
  /** The marker icon of a type missing from the table. */
  const DefaultIcon: string := "\U{2695}\U{FE0F}"

  /** `getMarkerColor(type)`: the table's colour, or the default one. */
  function MarkerColor(kind: string): (c: string)
    ensures kind in MedicalTypes ==> c == MedicalTypes[kind].color
    ensures kind !in MedicalTypes ==> c == DefaultColor
  {
    if kind in MedicalTypes && MedicalTypes[kind].color != "" then MedicalTypes[kind].color
    else DefaultColor
  }

  /** `getMedicalIcon(type)`: the table's icon, or the default one. */
  function MarkerIcon(kind: string): (i: string)
    ensures kind in MedicalTypes ==> i == MedicalTypes[kind].icon
    ensures kind !in MedicalTypes ==> i == DefaultIcon
  {
    if kind in MedicalTypes && MedicalTypes[kind].icon != "" then MedicalTypes[kind].icon
    else DefaultIcon
  }

  /** Every known type has its own colour, but a facility of an unknown
      type gets the colour of a clinic; hospitals and clinics share an
      icon. */
  lemma MarkerLookups(a: string, b: string)
    requires a in MedicalTypes && b in MedicalTypes && a != b
    ensures MarkerColor(a) != MarkerColor(b)
    ensures forall u :: u !in MedicalTypes ==> MarkerColor(u) == MarkerColor("clinic")
    ensures MarkerIcon("hospital") == MarkerIcon("clinic")
    ensures MarkerIcon(a) != DefaultIcon
  {
  }

  /** Whether the facility's lower-cased name or type contains `q`. */
  function MatchesQuery(q: string): Facility -> bool {
    (f: Facility) => Includes(Lower(f.name), q) || Includes(Lower(f.kind), q)
  }

  /** The most results the search list shows. */
  const MaxResults: nat := 10

  /** The least length of a query that is searched for. */
  const MinQueryLength: nat := 2

  /** `searchMedicalFacilities(text)`: nothing for a query shorter than two
      characters; otherwise the first ten facilities, in their order, whose
      name or type contains the query, all compared in lower case. */
  function SearchResults(facilities: seq<Facility>, text: string): (r: seq<Facility>)
    ensures |text| < MinQueryLength ==> r == []
    ensures |r| <= MaxResults
    ensures IsSubsequence(r, facilities)
    ensures forall f :: f in r ==> MatchesQuery(Lower(text))(f)
    ensures MinQueryLength <= |text| ==>
              var all := Filter(facilities, MatchesQuery(Lower(text)));
              r <= all && |r| == (if |all| < MaxResults then |all| else MaxResults)
  {
    if |text| < MinQueryLength then []
    else
      var all := Filter(facilities, MatchesQuery(Lower(text)));
      FilterIsSubsequence(facilities, MatchesQuery(Lower(text)));
      PrefixIsSubsequence(Take(all, MaxResults), all);
      SubsequenceTransitive(Take(all, MaxResults), all, facilities);
      Take(all, MaxResults)
  }

  /** With at most ten matches the list holds every match. */
  lemma SearchIsCompleteWhenFew(facilities: seq<Facility>, text: string, f: Facility)
    requires MinQueryLength <= |text|
    requires |Filter(facilities, MatchesQuery(Lower(text)))| <= MaxResults
    ensures f in SearchResults(facilities, text) <==> f in facilities && MatchesQuery(Lower(text))(f)
  {
  }

  /** A type name is searchable: any query of two or more characters that
      occurs in a facility's type, in whatever case it is typed, finds that
      facility. */
  lemma SearchFindsByType(f: Facility, text: string, i: int)
    requires MinQueryLength <= |text| && OccursAt(Lower(f.kind), Lower(text), i)
    ensures f in SearchResults([f], text)
  {
    assert MatchesQuery(Lower(text))(f);
    assert Filter([f], MatchesQuery(Lower(text))) == [f];
  }

  /** The search ignores the letter case of the query. */
  lemma SearchIgnoresQueryCase(facilities: seq<Facility>, text: string)
    ensures SearchResults(facilities, text) == SearchResults(facilities, Lower(text))
  {
    LowerIdempotent(text);
  }

  lemma {:induction false} PrefixIsSubsequence<T>(p: seq<T>, s: seq<T>)
    requires p <= s
    ensures IsSubsequence(p, s)
  {
    if p != [] {
      PrefixIsSubsequence(p[1..], s[1..]);
    }
  }

  lemma {:induction false} SubsequenceTransitive<T>(a: seq<T>, b: seq<T>, c: seq<T>)
    requires IsSubsequence(a, b) && IsSubsequence(b, c)
    ensures IsSubsequence(a, c)
    decreases |c|
  {
    if a != [] && b != [] && c != [] {
      if IsSubsequence(b, c[1..]) {
        SubsequenceTransitive(a, b, c[1..]);
      } else if a[0] == b[0] && IsSubsequence(a[1..], b[1..]) {
        SubsequenceTransitive(a[1..], b[1..], c[1..]);
      } else {
        SubsequenceTransitive(a, b[1..], c[1..]);
      }
    }
  }

  /** Whether the facility's type is one of `visible`. */
  function OfVisibleType(visible: set<string>): Facility -> bool {
    (f: Facility) => f.kind in visible
  }

  /** Whether the facility's type is another than `kind`. */
  function OfOtherType(kind: string): Facility -> bool {
    (f: Facility) => f.kind != kind
  }

  /** The effect that computes `filteredFacilities`: the facilities whose
      type is visible, in their order. */
  function Shown(facilities: seq<Facility>, visible: set<string>): (r: seq<Facility>)
    ensures forall f :: f in r <==> f in facilities && f.kind in visible
    ensures IsSubsequence(r, facilities)
    ensures (forall k :: 0 <= k < |facilities| ==> facilities[k].kind in visible) ==> r == facilities
  {
    FilterIsSubsequence(facilities, OfVisibleType(visible));
    if forall k :: 0 <= k < |facilities| ==> facilities[k].kind in visible then
      FilterAll(facilities, OfVisibleType(visible));
      Filter(facilities, OfVisibleType(visible))
    else
      Filter(facilities, OfVisibleType(visible))
  }

  /** `toggleFacilityType(type)` on the set of visible types. */
  function ToggleType(visible: set<string>, kind: string): (r: set<string>)
    ensures kind in r <==> kind !in visible
    ensures forall t :: t != kind ==> (t in r <==> t in visible)
  {
    if kind in visible then visible - {kind} else visible + {kind}
  }

  /** Pressing a key entry twice restores the visible types. */
  lemma ToggleTypeTwice(visible: set<string>, kind: string)
    ensures ToggleType(ToggleType(visible, kind), kind) == visible
  {
    var r := ToggleType(ToggleType(visible, kind), kind);
    assert forall t :: t in r <==> t in visible;
  }

  /** Hiding a type takes exactly its facilities off the map and keeps the
      rest in order. */
  lemma {:induction false} HideTypeShown(facilities: seq<Facility>, visible: set<string>, kind: string)
    requires kind in visible
    ensures Shown(facilities, ToggleType(visible, kind))
            == Filter(Shown(facilities, visible), OfOtherType(kind))
  {
    var hidden := ToggleType(visible, kind);
    if facilities != [] {
      HideTypeShown(facilities[1..], visible, kind);
      assert Filter(facilities, OfVisibleType(hidden))
             == (if OfVisibleType(hidden)(facilities[0]) then [facilities[0]] else [])
                + Filter(facilities[1..], OfVisibleType(hidden));
      assert Filter(facilities, OfVisibleType(visible))
             == (if OfVisibleType(visible)(facilities[0]) then [facilities[0]] else [])
                + Filter(facilities[1..], OfVisibleType(visible));
      FilterAppend((if OfVisibleType(visible)(facilities[0]) then [facilities[0]] else []),
                   Filter(facilities[1..], OfVisibleType(visible)), OfOtherType(kind));
    }
  }

  /** The screen's facility state. */
  class FacilityMap {
    /** `medicalFacilities`. */
    var facilities: seq<Facility>
    /** `visibleTypes`. */
    var visibleTypes: set<string>
    /** `query`. */
    var query: string
    /** `searchResults`. */
    var results: seq<Facility>

    /** Every type is shown at first, and nothing is found or searched. */
    constructor()
      ensures visibleTypes == MedicalTypes.Keys
      ensures facilities == [] && query == "" && results == []
    {
      facilities := [];
      visibleTypes := MedicalTypes.Keys;
      query := "";
      results := [];
    }

    /** `setMedicalFacilities` with the facilities found nearby. */
    method Found(found: seq<Facility>)
      modifies this
      ensures facilities == found
      ensures visibleTypes == old(visibleTypes) && query == old(query) && results == old(results)
    {
      facilities := found;
    }

    /** `filteredFacilities`, the markers on the map. */
    function OnMap(): (r: seq<Facility>)
      reads this
      ensures forall f :: f in r <==> f in facilities && f.kind in visibleTypes
    {
      Shown(facilities, visibleTypes)
    }

    /** `searchMedicalFacilities(text)`: the text is kept as typed. */
    method Search(text: string)
      modifies this
      ensures query == text && results == SearchResults(facilities, text)
      ensures facilities == old(facilities) && visibleTypes == old(visibleTypes)
    {
      query := text;
      if |text| < MinQueryLength {
        results := [];
        return;
      }
      results := Take(Filter(facilities, MatchesQuery(Lower(text))), MaxResults);
    }

    /** `handleFacilitySelect(f)`, without the map and route updates: the
        list closes and the box shows the facility's name. */
    method Select(f: Facility)
      modifies this
      ensures query == f.name && results == []
      ensures facilities == old(facilities) && visibleTypes == old(visibleTypes)
    {
      results := [];
      query := f.name;
    }

    /** `toggleFacilityType(type)`: a copy of the set with the type added
        or deleted replaces it. */
    method ToggleVisible(kind: string)
      modifies this
      ensures visibleTypes == ToggleType(old(visibleTypes), kind)
      ensures facilities == old(facilities) && query == old(query) && results == old(results)
    {
      var next := visibleTypes;
      if kind in next {
        next := next - {kind};
      } else {
        next := next + {kind};
      }
      visibleTypes := next;
    }
  }
}

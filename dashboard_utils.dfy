/** Panel keys of the dashboard scene: a panel with numeric id n is keyed
    `panel-n`, the id is read back from the key with JavaScript's parseInt,
    and a panel is looked up by key, falling back to a lookup by id. The
    scene graph is given as its objects in the order the scene-graph search
    visits them. */
module DashboardSceneUtils {
  import opened Common
  import opened Decimal

  /** An object of the scene graph: its optional key, and whether it is a
      visualization panel. */
  datatype SceneObject = SceneObject(key: Option<string>, isVizPanel: bool)

  const PanelKeyPrefix: string := "panel-"

  // ---------------------------------------------------------------------
  // Key formatting and String.prototype.replace

  /** `panel-` followed by the decimal form of the id. */
  function VizPanelKeyForPanelId(panelId: int): (key: string)
    ensures |key| > |PanelKeyPrefix| && key[..|PanelKeyPrefix|] == PanelKeyPrefix
    ensures key[|PanelKeyPrefix|..] == IntToDecimal(panelId)
  {
    PanelKeyPrefix + IntToDecimal(panelId)
  }

  predicate OccursAt(s: string, pat: string, i: nat)
  {
    i + |pat| <= |s| && s[i..i + |pat|] == pat
  }

  /** The first position at or after `from` where pat occurs. */
  function IndexOfFrom(s: string, pat: string, from: nat): (r: Option<nat>)
    requires from <= |s|
    ensures r.Some? ==> from <= r.value && OccursAt(s, pat, r.value)
    ensures r.Some? ==> forall j | from <= j < r.value :: !OccursAt(s, pat, j)
    ensures r.None? ==> forall j | from <= j <= |s| :: !OccursAt(s, pat, j)
    decreases |s| - from
  {
    if OccursAt(s, pat, from) then Some(from)
    else if from == |s| then None
    else IndexOfFrom(s, pat, from + 1)
  }

  /** `s.replace(pat, rep)` for a string pattern: only the first occurrence
      is replaced, and a string without one is returned as it is. */
  function ReplaceFirst(s: string, pat: string, rep: string): (r: string)
    ensures IndexOfFrom(s, pat, 0).None? ==> r == s
    ensures IndexOfFrom(s, pat, 0).Some? ==>
      var i := IndexOfFrom(s, pat, 0).value;
      |r| == |s| - |pat| + |rep| && r[..i] == s[..i] && r[i..i + |rep|] == rep && r[i + |rep|..] == s[i + |pat|..]
  {
    match IndexOfFrom(s, pat, 0)
    case None => s
    case Some(i) => s[..i] + rep + s[i + |pat|..]
  }

  // ---------------------------------------------------------------------
  // parseInt(s, 10)

  /** The characters parseInt skips first: white space (including every
      space separator) and line terminators. */
  predicate IsJsWhiteSpace(c: char)
  {
    var n := c as int;
    || n == 0x09 || n == 0x0B || n == 0x0C || n == 0x20 || n == 0xA0 || n == 0xFEFF
    || n == 0x1680 || 0x2000 <= n <= 0x200A || n == 0x202F || n == 0x205F || n == 0x3000
    || n == 0x0A || n == 0x0D || n == 0x2028 || n == 0x2029
  }

  /** s without its leading white space. */
  function TrimStart(s: string): (r: string)
    ensures |r| <= |s| && r == s[|s| - |r|..]
    ensures forall i | 0 <= i < |s| - |r| :: IsJsWhiteSpace(s[i])
    ensures r == [] || !IsJsWhiteSpace(r[0])
  {
    if s != [] && IsJsWhiteSpace(s[0]) then TrimStart(s[1..]) else s
  }

  /** The longest prefix of s made of decimal digits. */
  function LeadingDigits(s: string): (d: string)
    ensures |d| <= |s| && d == s[..|d|] && AllDigits(d)
    ensures |d| == |s| || !IsDigit(s[|d|])
  {
    if s == [] || !IsDigit(s[0]) then []
    else [s[0]] + LeadingDigits(s[1..])
  }

  /** The text after an optional sign. */
  function Unsigned(t: string): string
  {
    if t != [] && (t[0] == '+' || t[0] == '-') then t[1..] else t
  }

  /** `parseInt(s, 10)`: leading white space, an optional sign, then the
      longest run of digits; None is NaN, when there is no digit there. */
  function ParseInt(s: string): (r: Option<int>)
    ensures r.None? <==> LeadingDigits(Unsigned(TrimStart(s))) == []
    ensures r.Some? ==> var t := TrimStart(s);
      r.value == (if t[0] == '-' then -1 else 1) * DigitsValue(LeadingDigits(Unsigned(t)))
  {
    var t := TrimStart(s);
    var d := LeadingDigits(Unsigned(t));
    if d == [] then None
    else if t[0] == '-' then Some(-(DigitsValue(d) as int))
    else Some(DigitsValue(d))
  }

  /** A string of digits is all leading digits. */
  lemma {:induction false} LeadingDigitsOfDigits(s: string)
    requires AllDigits(s)
    ensures LeadingDigits(s) == s
  {
    if s != [] {
      assert AllDigits(s[1..]) by {
        forall i | 0 <= i < |s[1..]| ensures IsDigit(s[1..][i]) { assert s[1..][i] == s[i + 1]; }
      }
      LeadingDigitsOfDigits(s[1..]);
      assert [s[0]] + s[1..] == s;
    }
  }

  /** parseInt reads the decimal form of any integer back. */
  lemma ParseIntOfDecimal(n: int)
    ensures ParseInt(IntToDecimal(n)) == Some(n)
  {
    var s := IntToDecimal(n);
    assert !IsJsWhiteSpace(s[0]);
    assert TrimStart(s) == s;
    var m := if n < 0 then -n else n;
    DigitsValueOfDecimal(m);
    if n < 0 {
      assert Unsigned(s) == NatToDecimal(m);
      LeadingDigitsOfDigits(NatToDecimal(m));
    } else {
      assert s[0] != '-' && s[0] != '+';
      LeadingDigitsOfDigits(s);
    }
  }

  /** A panel key itself is not a number. */
  lemma PanelKeyIsNotANumber(n: int)
    ensures ParseInt(VizPanelKeyForPanelId(n)) == None
  {
    var key := VizPanelKeyForPanelId(n);
    assert key[0] == 'p';
    assert TrimStart(key) == key;
  }

  // ---------------------------------------------------------------------
  // Panel id of a panel

  /** The id of a panel: its key with the first `panel-` removed, read by
      parseInt (None is NaN). The key must be present. */
  function PanelIdForVizPanel(panel: SceneObject): (id: Option<int>)
    requires panel.key.Some?
    ensures var key, n := panel.key.value, |PanelKeyPrefix|;
      |key| > n && key[..n] == PanelKeyPrefix && AllDigits(key[n..]) ==> id == Some(DigitsValue(key[n..]))
    ensures !(exists i | 0 <= i <= |panel.key.value| :: OccursAt(panel.key.value, PanelKeyPrefix, i)) ==>
      id == ParseInt(panel.key.value)
  {
    PrefixedDigits(panel.key.value);
    ParseInt(ReplaceFirst(panel.key.value, PanelKeyPrefix, ""))
  }

  /** Removing the prefix from `panel-` followed by digits leaves digits that
      parseInt reads whole. */
  lemma PrefixedDigits(key: string)
    ensures var n := |PanelKeyPrefix|;
      |key| > n && key[..n] == PanelKeyPrefix && AllDigits(key[n..]) ==>
        ParseInt(ReplaceFirst(key, PanelKeyPrefix, "")) == Some(DigitsValue(key[n..]))
  {
    if |key| > |PanelKeyPrefix| && key[..|PanelKeyPrefix|] == PanelKeyPrefix && AllDigits(key[|PanelKeyPrefix|..]) {
      var digits := key[|PanelKeyPrefix|..];
      assert OccursAt(key, PanelKeyPrefix, 0);
      assert IndexOfFrom(key, PanelKeyPrefix, 0) == Some(0);
      assert ReplaceFirst(key, PanelKeyPrefix, "") == digits;
      ParseIntOfDigits(digits);
    }
  }

  /** parseInt reads a string of digits whole. */
  lemma ParseIntOfDigits(digits: string)
    requires |digits| > 0 && AllDigits(digits)
    ensures ParseInt(digits) == Some(DigitsValue(digits))
  {
    assert IsDigit(digits[0]);
    assert !IsJsWhiteSpace(digits[0]) && digits[0] != '-' && digits[0] != '+';
    assert TrimStart(digits) == digits;
    assert Unsigned(digits) == digits;
    LeadingDigitsOfDigits(digits);
  }

  /** Keying a panel by id and reading the id back gives the id. */
  lemma PanelIdRoundTrip(n: int, isVizPanel: bool)
    ensures PanelIdForVizPanel(SceneObject(Some(VizPanelKeyForPanelId(n)), isVizPanel)) == Some(n)
  {
    var key := VizPanelKeyForPanelId(n);
    assert OccursAt(key, PanelKeyPrefix, 0);
    assert ReplaceFirst(key, PanelKeyPrefix, "") == IntToDecimal(n);
    ParseIntOfDecimal(n);
  }

  // ---------------------------------------------------------------------
  // Lookup

  /** The position of the first object the scene-graph search meets whose
      key is `key`. */
  function FindObject(scene: seq<SceneObject>, key: string): (r: Option<nat>)
    ensures r.Some? ==> r.value < |scene| && scene[r.value].key == Some(key)
    ensures r.Some? ==> forall j | 0 <= j < r.value :: scene[j].key != Some(key)
    ensures r.None? ==> forall j | 0 <= j < |scene| :: scene[j].key != Some(key)
  {
    if scene == [] then None
    else if scene[0].key == Some(key) then Some(0)
    else
      match FindObject(scene[1..], key)
      case None => None
      case Some(k) => Some(k + 1)
  }

  /** The text of the error thrown when the object found is not a panel. */
  function NotAVizPanel(key: string): string
  {
    "Found panel with key " + key + " but it was not a VizPanel"
  }

  predicate IsEmptyKey(key: Option<string>)
  {
    key.None? || key.value == ""
  }

  /** The first object keyed `key`, when it is a panel; an error when it is
      not; nothing for an empty key or when no object has the key. */
  function FindVizPanelInternal(scene: seq<SceneObject>, key: Option<string>): (r: Result<Option<SceneObject>, string>)
    ensures IsEmptyKey(key) ==> r == Success(None)
    ensures !IsEmptyKey(key) && FindObject(scene, key.value).None? ==> r == Success(None)
    ensures !IsEmptyKey(key) && FindObject(scene, key.value).Some? ==>
      var p := scene[FindObject(scene, key.value).value];
      r == if p.isVizPanel then Success(Some(p)) else Failure(NotAVizPanel(key.value))
    ensures r.Success? && r.value.Some? ==> r.value.value in scene && r.value.value.isVizPanel && r.value.value.key == key
  {
    if IsEmptyKey(key) then Success(None)
    else
      match FindObject(scene, key.value)
      case None => Success(None)
      case Some(i) => if scene[i].isVizPanel then Success(Some(scene[i])) else Failure(NotAVizPanel(key.value))
  }

  /** Looks a panel up by key; when nothing has that key and the key reads
      as a number, looks up the panel keyed by that number instead. An
      error from either lookup is passed on. Whatever is found is a panel
      of the scene, keyed either with the key asked for or with the panel
      key of the id that key reads as. */
  function FindVizPanelByKey(scene: seq<SceneObject>, key: Option<string>): (r: Result<Option<SceneObject>, string>)
    ensures r.Success? && r.value.Some? ==>
      var p := r.value.value;
      && p in scene && p.isVizPanel && !IsEmptyKey(key)
      && (p.key == key
          || (ParseInt(key.value).Some? && p.key == Some(VizPanelKeyForPanelId(ParseInt(key.value).value))))
  {
    if IsEmptyKey(key) then Success(None)
    else
      match FindVizPanelInternal(scene, key)
      case Failure(e) => Failure(e)
      case Success(Some(p)) => Success(Some(p))
      case Success(None) =>
        match ParseInt(key.value)
        case None => Success(None)
        case Some(id) => FindVizPanelInternal(scene, Some(VizPanelKeyForPanelId(id)))
  }

  /** The order of the lookups: an empty key finds nothing; a direct match
      (or the error it raises) wins over any fallback; without a direct
      match a key that is not a number finds nothing, and a numeric key is
      looked up as the key of the panel with that id. */
  lemma FindVizPanelByKeyOrder(scene: seq<SceneObject>, key: Option<string>)
    ensures IsEmptyKey(key) ==> FindVizPanelByKey(scene, key) == Success(None)
    ensures !IsEmptyKey(key) && FindObject(scene, key.value).Some? ==>
      FindVizPanelByKey(scene, key) == FindVizPanelInternal(scene, key)
    ensures !IsEmptyKey(key) && FindObject(scene, key.value).None? ==>
      FindVizPanelByKey(scene, key) ==
        match ParseInt(key.value)
        case None => Success(None)
        case Some(id) => FindVizPanelInternal(scene, Some(VizPanelKeyForPanelId(id)))
  {
  }

  /** Looking a panel up by its bare numeric id finds what looking it up by
      its panel key finds, as long as no object is keyed by the bare id. */
  lemma LookupByIdAgreesWithPanelKey(scene: seq<SceneObject>, n: int)
    requires FindObject(scene, IntToDecimal(n)).None?
    ensures FindVizPanelByKey(scene, Some(IntToDecimal(n))) == FindVizPanelByKey(scene, Some(VizPanelKeyForPanelId(n)))
  {
    LookupByBareId(scene, n);
    LookupByPanelKey(scene, n);
  }

  lemma LookupByBareId(scene: seq<SceneObject>, n: int)
    requires FindObject(scene, IntToDecimal(n)).None?
    ensures FindVizPanelByKey(scene, Some(IntToDecimal(n))) == FindVizPanelInternal(scene, Some(VizPanelKeyForPanelId(n)))
  {
    ParseIntOfDecimal(n);
    assert FindVizPanelInternal(scene, Some(IntToDecimal(n))) == Success(None);
  }

  /** A panel key is looked up directly and never as a number. */
  lemma LookupByPanelKey(scene: seq<SceneObject>, n: int)
    ensures FindVizPanelByKey(scene, Some(VizPanelKeyForPanelId(n))) == FindVizPanelInternal(scene, Some(VizPanelKeyForPanelId(n)))
  {
    PanelKeyIsNotANumber(n);
  }
}

/**
 * The pure helpers of DunGen's `UnityUtil`: box containment, component-wise absolute
 * value, the cardinal direction of a vector, a masked component update, and the
 * renaming of a name that is already taken. Floats are modelled as reals.
 */
module UnityUtil {
  import opened Nullable
  import opened Text

  datatype Vector3 = Vector3(x: real, y: real, z: real)

  datatype Axis = X | Y | Z

  function Component(v: Vector3, a: Axis): real {
    match a
    case X => v.x
    case Y => v.y
    case Z => v.z
  }

  function Abs(x: real): (r: real)
    ensures r >= 0.0 && (r == x || r == -x)
  {
    if x < 0.0 then -x else x
  }

  /** Unity's `Bounds`: a centre and the half-size on each axis. */
  datatype Bounds = Bounds(center: Vector3, extents: Vector3) {
    function Min(): Vector3 {
      Vector3(center.x - extents.x, center.y - extents.y, center.z - extents.z)
    }
    function Max(): Vector3 {
      Vector3(center.x + extents.x, center.y + extents.y, center.z + extents.z)
    }
  }

  /** `bounds` contains `other` when no face of `other` lies outside `bounds`. */
  predicate Contains(bounds: Bounds, other: Bounds) {
    var lo, hi, olo, ohi := bounds.Min(), bounds.Max(), other.Min(), other.Max();
    !(olo.x < lo.x || olo.y < lo.y || olo.z < lo.z ||
      ohi.x > hi.x || ohi.y > hi.y || ohi.z > hi.z)
  }

  /** Containment holds exactly when, on every axis, `other`'s extent lies within `bounds`'s. */
  lemma ContainsIff(bounds: Bounds, other: Bounds)
    ensures Contains(bounds, other) <==>
      forall a: Axis :: Component(bounds.Min(), a) <= Component(other.Min(), a)
                     && Component(other.Max(), a) <= Component(bounds.Max(), a)
  {
    if Contains(bounds, other) {
      forall a: Axis
        ensures Component(bounds.Min(), a) <= Component(other.Min(), a)
             && Component(other.Max(), a) <= Component(bounds.Max(), a)
      {
        match a
        case X =>
        case Y =>
        case Z =>
      }
    } else {
      var lo, olo := bounds.Min(), other.Min();
      if olo.x < lo.x || other.Max().x > bounds.Max().x {
        assert !(Component(bounds.Min(), X) <= Component(other.Min(), X)
                 && Component(other.Max(), X) <= Component(bounds.Max(), X));
      } else if olo.y < lo.y || other.Max().y > bounds.Max().y {
        assert !(Component(bounds.Min(), Y) <= Component(other.Min(), Y)
                 && Component(other.Max(), Y) <= Component(bounds.Max(), Y));
      } else {
        assert !(Component(bounds.Min(), Z) <= Component(other.Min(), Z)
                 && Component(other.Max(), Z) <= Component(bounds.Max(), Z));
      }
    }
  }

  lemma ContainsReflexive(b: Bounds)
    ensures Contains(b, b)
  {
  }

  lemma ContainsTransitive(a: Bounds, b: Bounds, c: Bounds)
    requires Contains(a, b) && Contains(b, c)
    ensures Contains(a, c)
  {
  }

  /** Component-wise absolute value. */
  function VectorAbs(v: Vector3): (r: Vector3)
    ensures forall a: Axis :: Component(r, a) >= 0.0
                           && (Component(r, a) == Component(v, a) || Component(r, a) == -Component(v, a))
  {
    Vector3(Abs(v.x), Abs(v.y), Abs(v.z))
  }

  /** The absolute value of `v` on axis `a` exceeds that on both other axes. */
  predicate StrictlyLargest(v: Vector3, a: Axis) {
    forall b: Axis :: b != a ==> Abs(Component(v, a)) > Abs(Component(v, b))
  }

  /**
   * The axis `GetCardinalDirection` keeps: the one whose absolute component is strictly the
   * largest, or X when no axis is.
   */
  function DominantAxis(v: Vector3): (a: Axis)
    ensures forall b: Axis :: StrictlyLargest(v, b) ==> a == b
    ensures a == X || StrictlyLargest(v, a)
  {
    if StrictlyLargest(v, X) then X
    else if StrictlyLargest(v, Y) then Y
    else if StrictlyLargest(v, Z) then Z
    else X
  }

  function Unit(a: Axis, d: real): (v: Vector3)
    ensures Component(v, a) == d
    ensures forall b: Axis :: b != a ==> Component(v, b) == 0.0
  {
    match a
    case X => Vector3(d, 0.0, 0.0)
    case Y => Vector3(0.0, d, 0.0)
    case Z => Vector3(0.0, 0.0, d)
  }

  /** A cardinal direction and the `magnitude` out-parameter that goes with it. */
  datatype Cardinal = Cardinal(direction: Vector3, magnitude: real)

  /** `c / |c|` along axis `a`; `None` stands for the NaN vector that 0/0 gives. */
  function Along(a: Axis, c: real): (r: Option<Cardinal>)
    ensures r.None? <==> c == 0.0
    ensures r.Some? ==>
              && r.value.direction == Unit(a, r.value.magnitude)
              && (r.value.magnitude == 1.0 || r.value.magnitude == -1.0)
              && r.value.magnitude * c > 0.0
  {
    if c == 0.0 then None
    else
      var d := c / Abs(c);
      assert c > 0.0 ==> d == c / c == 1.0;
      assert c < 0.0 ==> d == c / -c == -1.0;
      Some(Cardinal(Unit(a, d), d))
  }

  /**
   * The unit vector along the dominant axis of `direction`, pointing the same way as that
   * component, together with that component's sign as `magnitude`.
   */
  function GetCardinalDirection(direction: Vector3): (r: Option<Cardinal>)
    ensures var a := DominantAxis(direction);
      && (r.None? <==> Component(direction, a) == 0.0)
      && (r.Some? ==>
            && r.value.magnitude == Component(r.value.direction, a)
            && (r.value.magnitude == 1.0 || r.value.magnitude == -1.0)
            && r.value.magnitude * Component(direction, a) > 0.0
            && forall b: Axis :: b != a ==> Component(r.value.direction, b) == 0.0)
  {
    var absX, absY, absZ := Abs(direction.x), Abs(direction.y), Abs(direction.z);
    if absX > absY && absX > absZ then
      assert StrictlyLargest(direction, X);
      Along(X, direction.x)
    else if absY > absX && absY > absZ then
      assert StrictlyLargest(direction, Y);
      Along(Y, direction.y)
    else if absZ > absX && absZ > absY then
      assert StrictlyLargest(direction, Z);
      Along(Z, direction.z)
    else
      Along(X, direction.x)
  }

  /**
   * `SetVector3Masked(ref input, value, mask)`: the `ref` vector is passed in and its new
   * value returned. Each component whose mask entry is non-zero takes `value`'s component;
   * the others keep `input`'s.
   */
  method SetVector3Masked(input: Vector3, value: Vector3, mask: Vector3) returns (output: Vector3)
    ensures forall a: Axis ::
              Component(output, a) == if Component(mask, a) != 0.0 then Component(value, a) else Component(input, a)
  {
    output := input;
    if mask.x != 0.0 {
      output := output.(x := value.x);
    }
    if mask.y != 0.0 {
      output := output.(y := value.y);
    }
    if mask.z != 0.0 {
      output := output.(z := value.z);
    }
  }

  // ---------------------------------------------------------------------------------------
  // GetUniqueName

  /** A name split at its last space: the text before it, and the text after it if that parses as an int. */
  datatype NameParts = NameParts(baseName: string, number: Option<int>)

  function SplitName(name: string): (p: NameParts)
    ensures p.number.Some? ==> -(Pow10(|name|) as int) < p.number.value < Pow10(|name|)
  {
    var sep := LastIndexOf(name, ' ');
    if sep > -1 then
      Pow10Monotone(|name| - sep - 1, |name|);
      NameParts(name[..sep], TryParseInt(name[sep + 1..]))
    else
      NameParts(name, None)
  }

  lemma SplitJoined(b: string, t: string)
    requires ' ' !in t
    ensures SplitName(b + " " + t) == NameParts(b, TryParseInt(t))
  {
    var s := b + " " + t;
    var sep := LastIndexOf(s, ' ');
    assert s[|b|] == ' ';
    forall k | |b| < k < |s|
      ensures s[k] != ' '
    {
      assert s[k] == t[k - |b| - 1];
    }
    assert sep == |b|;
    assert s[..sep] == b && s[sep + 1..] == t;
  }

  /**
   * The name tried after `name` is taken: the number after the last space plus one, or
   * `name + " 2"` when there is no such number. Either way the candidate ends in a number,
   * one more than `name`'s or 2.
   */
  function NextCandidate(name: string): (r: string)
    ensures var p := SplitName(name);
      SplitName(r) == if p.number.Some? then NameParts(p.baseName, Some(p.number.value + 1))
                      else NameParts(name, Some(2))
  {
    var p := SplitName(name);
    if p.number.Some? then
      var r := p.baseName + " " + IntToString(p.number.value + 1);
      SplitJoined(p.baseName, IntToString(p.number.value + 1));
      ParseIntToString(p.number.value + 1);
      r
    else
      assert IntToString(2) == "2";
      assert name + " 2" == name + " " + "2";
      SplitJoined(name, "2");
      ParseIntToString(2);
      name + " 2"
  }

  function MaxLength(names: seq<string>): (m: nat)
    ensures forall k :: 0 <= k < |names| ==> |names[k]| <= m
  {
    if names == [] then 0
    else
      var rest := MaxLength(names[1..]);
      assert forall k :: 1 <= k < |names| ==> names[k] == names[1..][k - 1];
      if |names[0]| > rest then |names[0]| else rest
  }

  /** 2 for the empty name, 1 for a name without a number, 0 for a name with a number. */
  function NameStage(name: string): nat {
    if name == "" then 2 else if SplitName(name).number.None? then 1 else 0
  }

  /** How far a numbered name is below a number too long for any used name. */
  function NumberDistance(name: string, usedNames: seq<string>): nat {
    var p := SplitName(name);
    var bound := Pow10(MaxLength(usedNames));
    if p.number.Some? && p.number.value < bound then bound - p.number.value else 0
  }

  /** Each retry moves to a later stage, or to a larger number within the bound. */
  lemma CandidateProgress(name: string, usedNames: seq<string>)
    requires name != "" && name in usedNames
    ensures NameStage(NextCandidate(name)) == 0
    ensures NameStage(name) > 0 || NumberDistance(NextCandidate(name), usedNames) < NumberDistance(name, usedNames)
  {
    var k :| 0 <= k < |usedNames| && usedNames[k] == name;
    Pow10Monotone(|name|, MaxLength(usedNames));
  }

  /**
   * `GetUniqueName`, as a function: the empty name becomes "New"; a name not in
   * `usedNames` is kept; a taken name is retried with `NextCandidate`. The result is never
   * one of `usedNames`.
   */
  function UniqueName(name: string, usedNames: seq<string>): (r: string)
    ensures r !in usedNames
    ensures name != "" && name !in usedNames ==> r == name
    decreases NameStage(name), NumberDistance(name, usedNames)
  {
    if name == "" then
      assert LastIndexOf("New", ' ') == -1;
      UniqueName("New", usedNames)
    else if name !in usedNames then name
    else
      CandidateProgress(name, usedNames);
      UniqueName(NextCandidate(name), usedNames)
  }

  lemma EmptyNameIsNew(usedNames: seq<string>)
    ensures UniqueName("", usedNames) == UniqueName("New", usedNames)
  {
  }

  /** On a collision the retry is the next numbered candidate. */
  lemma CollisionRetries(name: string, usedNames: seq<string>)
    requires name != "" && name in usedNames
    ensures UniqueName(name, usedNames) == UniqueName(NextCandidate(name), usedNames)
    ensures UniqueName(name, usedNames) != name
  {
  }

  /**
   * The source's recursion with its search loop over `usedNames`.
   */
  method GetUniqueName(name: string, usedNames: seq<string>) returns (r: string)
    ensures r == UniqueName(name, usedNames)
    decreases NameStage(name), NumberDistance(name, usedNames)
  {
    if name == "" {
      assert LastIndexOf("New", ' ') == -1;
      r := GetUniqueName("New", usedNames);
      return;
    }
    var baseName := name;
    var number := 0;
    var hasNumber := false;
    var sep := LastIndexOf(name, ' ');
    if sep > -1 {
      baseName := name[..sep];
      var parsed := TryParseInt(name[sep + 1..]);
      hasNumber := parsed.Some?;
      number := if parsed.Some? then parsed.value else 0;
      number := number + 1;
    }
    var i := 0;
    while i < |usedNames|
      invariant 0 <= i <= |usedNames|
      invariant name !in usedNames[..i]
    {
      if usedNames[i] == name {
        CandidateProgress(name, usedNames);
        if hasNumber {
          r := GetUniqueName(baseName + " " + IntToString(number), usedNames);
        } else {
          r := GetUniqueName(name + " 2", usedNames);
        }
        return;
      }
      i := i + 1;
    }
    assert usedNames[..i] == usedNames;
    r := name;
  }
}

/**
 * The byte formatter: a byte amount is divided by 1024 until it drops below
 * 1024, and reported with the binary unit reached. The two-decimal text
 * rendering is not modelled; a result is the unit index and the magnitude.
 */
module ByteSize {
  import opened Wrappers

  /** The binary multiple between two consecutive units. */
  const Factor: real := 1024.0

  /** The unit prefixes tried in order; index k stands for 1024^k bytes. */
  const Units: seq<string> := ["", "K", "M", "G", "T", "P"]

  /** The number of units; amounts of 1024^UnitCount or more have none. */
  const UnitCount: nat := 6

  /** A formatted amount: the index of its unit in `Units` and the value shown. */
  datatype Scaled = Scaled(unit: nat, magnitude: real)

  /** The unit prefix printed for a formatted amount: none for bytes, one letter above. */
  function UnitName(s: Scaled): (name: string)
    requires s.unit < UnitCount
    ensures |name| == if s.unit == 0 then 0 else 1
  {
    Units[s.unit]
  }

  /**
   * The byte amount that `magnitude` stands for at unit `unit`:
   * magnitude * 1024^unit, built up one multiplication by 1024 at a time.
   */
  function InBytes(magnitude: real, unit: nat): real
  {
    if unit == 0 then magnitude else Factor * InBytes(magnitude, unit - 1)
  }

  /** 1024^k. */
  function Pow1024(k: nat): real
  {
    InBytes(1.0, k)
  }

  /**
   * The formatter resumed at unit `k` with the remaining value `b`: the value
   * is reported at the first unit where it is below 1024, and nothing is
   * reported once every unit has been tried.
   */
  function ScaleFrom(b: real, k: nat): (r: Option<Scaled>)
    requires k <= UnitCount
    ensures r.Some? ==> k <= r.value.unit < UnitCount && r.value.magnitude < Factor
    ensures r.Some? && r.value.unit > k ==> 1.0 <= r.value.magnitude
    decreases UnitCount - k
  {
    if k == UnitCount then None
    else if b < Factor then Some(Scaled(k, b))
    else ScaleFrom(b / Factor, k + 1)
  }

  /**
   * What the formatter reports for `bytes`: a unit that exists and a
   * magnitude below 1024, and the amount itself at unit "" when it is below 1024.
   */
  function SizeOf(bytes: real): (r: Option<Scaled>)
    ensures r.Some? ==> r.value.unit < UnitCount && r.value.magnitude < Factor
    ensures bytes < Factor ==> r == Some(Scaled(0, bytes))
  {
    ScaleFrom(bytes, 0)
  }

  /**
   * The declarative meaning of a report: a unit that exists, a magnitude that
   * stands for exactly the amount at that unit, a magnitude below 1024, and
   * at least 1 whenever a unit above bytes was chosen.
   */
  predicate IsScaling(bytes: real, s: Scaled)
  {
    s.unit < UnitCount &&
    InBytes(s.magnitude, s.unit) == bytes &&
    s.magnitude < Factor &&
    (s.unit > 0 ==> 1.0 <= s.magnitude)
  }

  /** The formatter as a loop over the units that divides the amount in place. */
  method GetSize(bytes: real) returns (r: Option<Scaled>)
    ensures r == SizeOf(bytes)
    ensures r.None? <==> Pow1024(UnitCount) <= bytes
    ensures r.Some? ==> IsScaling(bytes, r.value)
  {
    SizeOfIsScaling(bytes);
    var b := bytes;
    var k := 0;
    while k < UnitCount
      invariant k <= UnitCount
      invariant ScaleFrom(b, k) == SizeOf(bytes)
    {
      if b < Factor {
        return Some(Scaled(k, b));
      }
      b := b / Factor;
      k := k + 1;
    }
    return None;
  }

  /** Scaling up by one more unit multiplies the amount by 1024. */
  lemma {:induction false} InBytesStep(m: real, u: nat)
    ensures InBytes(Factor * m, u) == InBytes(m, u + 1)
  {
    if u > 0 {
      InBytesStep(m, u - 1);
    }
  }

  /** The amount grows strictly with the magnitude at a fixed unit. */
  lemma {:induction false} InBytesStrict(m: real, n: real, u: nat)
    requires m < n
    ensures InBytes(m, u) < InBytes(n, u)
  {
    if u > 0 {
      InBytesStrict(m, n, u - 1);
    }
  }

  /** At a fixed unit, different magnitudes stand for different amounts. */
  lemma InBytesInjective(m: real, n: real, u: nat)
    requires InBytes(m, u) == InBytes(n, u)
    ensures m == n
  {
    if m < n {
      InBytesStrict(m, n, u);
    } else if n < m {
      InBytesStrict(n, m, u);
    }
  }

  /** InBytes is multiplication by 1024^u. */
  lemma {:induction false} InBytesIsProduct(m: real, u: nat)
    ensures InBytes(m, u) == m * Pow1024(u)
    decreases u
  {
    if u > 0 {
      InBytesIsProduct(m, u - 1);
      var p := Pow1024(u - 1);
      assert Pow1024(u) == Factor * p;
      assert m * (Factor * p) == Factor * (m * p);
    }
  }

  /** Powers of 1024 are positive and grow with the exponent. */
  lemma {:induction false} PowMonotone(i: nat, j: nat)
    requires i <= j
    ensures 1.0 <= Pow1024(i) <= Pow1024(j)
  {
    if i < j {
      PowMonotone(i, j - 1);
    } else if i > 0 {
      PowMonotone(i - 1, i - 1);
    }
  }

  /** The formatter resumed at unit `k` reports nothing exactly when `b >= 1024^(6-k)`. */
  lemma {:induction false} ScaleFromNone(b: real, k: nat)
    requires k < UnitCount
    ensures ScaleFrom(b, k).None? <==> Pow1024(UnitCount - k) <= b
    decreases UnitCount - k
  {
    InBytesStep(1.0, UnitCount - k - 1);
    if b < Factor {
      PowMonotone(1, UnitCount - k);
    } else if k + 1 < UnitCount {
      ScaleFromNone(b / Factor, k + 1);
    }
  }

  /** The formatter resumed at unit `k` scales the remaining value `b`. */
  lemma {:induction false} ScaleFromSome(b: real, k: nat, s: Scaled)
    requires k < UnitCount
    requires ScaleFrom(b, k) == Some(s)
    ensures k <= s.unit < UnitCount
    ensures InBytes(s.magnitude, s.unit - k) == b
    ensures s.magnitude < Factor
    ensures s.unit > k ==> 1.0 <= s.magnitude
    decreases UnitCount - k
  {
    if Factor <= b {
      assert ScaleFrom(b / Factor, k + 1) == Some(s);
      ScaleFromSome(b / Factor, k + 1, s);
    }
  }

  /** Every report of the formatter is a scaling of its input. */
  lemma SizeOfIsScaling(bytes: real)
    ensures SizeOf(bytes).None? <==> Pow1024(UnitCount) <= bytes
    ensures SizeOf(bytes).Some? ==> IsScaling(bytes, SizeOf(bytes).value)
  {
    ScaleFromNone(bytes, 0);
    if SizeOf(bytes).Some? {
      ScaleFromSome(bytes, 0, SizeOf(bytes).value);
    }
  }

  /** A scaling pins its amount between consecutive powers of 1024. */
  lemma ScalingBounds(bytes: real, s: Scaled)
    requires IsScaling(bytes, s)
    ensures bytes < Pow1024(s.unit + 1)
    ensures s.unit > 0 ==> Pow1024(s.unit) <= bytes
  {
    InBytesStrict(s.magnitude, Factor, s.unit);
    InBytesStep(1.0, s.unit);
    if 1.0 < s.magnitude {
      InBytesStrict(1.0, s.magnitude, s.unit);
    }
  }

  /** An amount has at most one scaling. */
  lemma ScalingUnique(bytes: real, s: Scaled, t: Scaled)
    requires IsScaling(bytes, s) && IsScaling(bytes, t)
    ensures s == t
  {
    ScalingBounds(bytes, s);
    ScalingBounds(bytes, t);
    if s.unit < t.unit {
      PowMonotone(s.unit + 1, t.unit);
    } else if t.unit < s.unit {
      PowMonotone(t.unit + 1, s.unit);
    } else {
      InBytesInjective(s.magnitude, t.magnitude, s.unit);
    }
  }

  /**
   * The formatter's report is exactly the one scaling of the amount, and it
   * reports nothing exactly when the amount has no scaling.
   */
  lemma SizeOfCharacterized(bytes: real, s: Scaled)
    ensures SizeOf(bytes) == Some(s) <==> IsScaling(bytes, s)
    ensures Pow1024(UnitCount) <= bytes ==> !IsScaling(bytes, s)
  {
    SizeOfIsScaling(bytes);
    if IsScaling(bytes, s) {
      ScalingBounds(bytes, s);
      PowMonotone(s.unit + 1, UnitCount);
      if SizeOf(bytes).Some? {
        ScalingUnique(bytes, s, SizeOf(bytes).value);
      }
    }
  }

  /** A magnitude times a positive multiple is the amount divided by that multiple. */
  lemma MagnitudeIsQuotient(m: real, p: real, b: real)
    requires 0.0 < p && m * p == b
    ensures m == b / p
  {
  }

  /**
   * For an amount in [0, 1024^6) the unit reported is the smallest k with
   * amount < 1024^(k+1), and its magnitude is amount / 1024^k.
   */
  lemma SizeOfSmallestUnit(bytes: real)
    requires 0.0 <= bytes < Pow1024(UnitCount)
    ensures SizeOf(bytes).Some?
    ensures bytes < Pow1024(SizeOf(bytes).value.unit + 1)
    ensures forall j: nat :: 1 <= j <= SizeOf(bytes).value.unit ==> Pow1024(j) <= bytes
    ensures 1.0 <= Pow1024(SizeOf(bytes).value.unit)
    ensures SizeOf(bytes).value.magnitude == bytes / Pow1024(SizeOf(bytes).value.unit)
  {
    SizeOfIsScaling(bytes);
    var s := SizeOf(bytes).value;
    ScalingIsSmallest(bytes, s);
    ScalingIsQuotient(bytes, s);
  }

  /** A scaling's unit is the smallest k with amount < 1024^(k+1). */
  lemma ScalingIsSmallest(bytes: real, s: Scaled)
    requires IsScaling(bytes, s)
    ensures bytes < Pow1024(s.unit + 1)
    ensures forall j: nat :: 1 <= j <= s.unit ==> Pow1024(j) <= bytes
  {
    ScalingBounds(bytes, s);
    forall j: nat | 1 <= j <= s.unit
      ensures Pow1024(j) <= bytes
    {
      PowMonotone(j, s.unit);
    }
  }

  /** A scaling's magnitude is the amount divided by its unit's multiple. */
  lemma ScalingIsQuotient(bytes: real, s: Scaled)
    requires IsScaling(bytes, s)
    ensures 1.0 <= Pow1024(s.unit)
    ensures s.magnitude == bytes / Pow1024(s.unit)
  {
    InBytesIsProduct(s.magnitude, s.unit);
    PowMonotone(s.unit, s.unit);
    MagnitudeIsQuotient(s.magnitude, Pow1024(s.unit), bytes);
  }

  /**
   * Below 1024 (negative amounts included) the first unit is taken and the
   * amount is reported unchanged.
   */
  lemma SizeOfBelowFactor(bytes: real)
    requires bytes < Factor
    ensures SizeOf(bytes) == Some(Scaled(0, bytes))
  {
  }

  /** From 1024^6 bytes on, every unit is used up and nothing is reported. */
  lemma SizeOfBeyondLastUnit(bytes: real)
    requires Pow1024(UnitCount) <= bytes
    ensures SizeOf(bytes) == None
  {
    SizeOfIsScaling(bytes);
  }

  /** 0 B, 1 KB, 1.5 KB and 1 GB. */
  lemma SizeOfExamples()
    ensures SizeOf(0.0) == Some(Scaled(0, 0.0))
    ensures SizeOf(1024.0) == Some(Scaled(1, 1.0))
    ensures SizeOf(1536.0) == Some(Scaled(1, 1.5))
    ensures SizeOf(1073741824.0) == Some(Scaled(3, 1.0))
  {
    assert ScaleFrom(1048576.0, 2) == ScaleFrom(1024.0, 3);
  }
}

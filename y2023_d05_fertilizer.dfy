// Seeds, soil and fertilizer (2023, day 5).
//
// An almanac lists seed numbers and seven maps: seed to soil, soil to
// fertilizer, and so on down to location. Each map is a list of range triplets
// `destination source length`; a number inside the source range of a triplet
// moves to the same offset in its destination range, and a number no triplet
// covers keeps its value. In the second part the seed list is read as pairs of
// a range start and a range length.

module Fertilizer {
  import opened Wrappers

  /** One line of a map: `destination_range_start source_range_start range_length`. */
  datatype MapTriplet = MapTriplet(destinationRangeStart: nat, sourceRangeStart: nat, rangeLength: nat)

  /** What `convert` asserts of a triplet: its ranges are not empty. */
  predicate ValidTriplet(t: MapTriplet)
  {
    t.rangeLength >= 1
  }

  predicate ValidMap(list: seq<MapTriplet>)
  {
    forall i :: 0 <= i < |list| ==> ValidTriplet(list[i])
  }

  /** `n` lies in the triplet's source range. */
  predicate Covers(t: MapTriplet, n: nat)
  {
    t.sourceRangeStart <= n < t.sourceRangeStart + t.rangeLength
  }

  /**
   * `MapTriplet::convert`: a number in the source range moves to the same
   * offset in the destination range; any other number is not converted.
   */
  function Convert(t: MapTriplet, n: nat): (r: Option<nat>)
    requires ValidTriplet(t)
    ensures r.Some? <==> Covers(t, n)
    ensures r.Some? ==> t.destinationRangeStart <= r.value < t.destinationRangeStart + t.rangeLength
    ensures r.Some? ==> r.value - t.destinationRangeStart == n - t.sourceRangeStart
  {
    if n >= t.sourceRangeStart && n <= t.sourceRangeStart + t.rangeLength - 1 then
      Some(t.destinationRangeStart + n - t.sourceRangeStart)
    else
      None
  }

  /** The triplet read the other way round. */
  function Inverse(t: MapTriplet): MapTriplet
  {
    MapTriplet(t.sourceRangeStart, t.destinationRangeStart, t.rangeLength)
  }

  /** A triplet converts one to one: the reversed triplet converts every converted number back. */
  lemma ConvertInverse(t: MapTriplet, n: nat)
    requires ValidTriplet(t) && Covers(t, n)
    ensures Convert(Inverse(t), Convert(t, n).value) == Some(n)
  {
  }

  /**
   * `convert_num_with_list` on values: the first triplet that covers the number
   * converts it, and a number no triplet covers is returned unchanged.
   */
  function ConvertWithList(list: seq<MapTriplet>, n: nat): nat
    requires ValidMap(list)
  {
    if list == [] then n
    else
      match Convert(list[0], n)
      case Some(m) => m
      case None => ConvertWithList(list[1..], n)
  }

  /** No triplet among the first `k` covers `n`. */
  predicate NoneCovers(list: seq<MapTriplet>, k: nat, n: nat)
    requires k <= |list|
  {
    forall i :: 0 <= i < k ==> !Covers(list[i], n)
  }

  /**
   * The first covering triplet decides: with triplet `k` the first to cover
   * `n` the result is `n` moved by that triplet, and with none covering it the
   * result is `n` itself.
   */
  lemma {:induction false} ConvertWithListMeaning(list: seq<MapTriplet>, n: nat)
    requires ValidMap(list)
    ensures NoneCovers(list, |list|, n) ==> ConvertWithList(list, n) == n
    ensures forall k :: 0 <= k < |list| && Covers(list[k], n) && NoneCovers(list, k, n) ==>
      ConvertWithList(list, n) == list[k].destinationRangeStart + (n - list[k].sourceRangeStart)
  {
    if list != [] {
      ConvertWithListMeaning(list[1..], n);
      if !Covers(list[0], n) {
        forall k | 0 <= k < |list| && Covers(list[k], n) && NoneCovers(list, k, n)
          ensures ConvertWithList(list, n) == list[k].destinationRangeStart + (n - list[k].sourceRangeStart)
        {
          assert k > 0;
          assert list[1..][k - 1] == list[k];
          assert NoneCovers(list[1..], k - 1, n);
        }
        if NoneCovers(list, |list|, n) {
          assert NoneCovers(list[1..], |list| - 1, n);
        }
      }
    }
  }

  /** `MapTriplet::convert_num_with_list`: the loop over the triplets returning at the first conversion. */
  method ConvertNumWithList(list: seq<MapTriplet>, number: nat) returns (r: nat)
    requires ValidMap(list)
    ensures r == ConvertWithList(list, number)
  {
    for i := 0 to |list|
      invariant ConvertWithList(list[i..], number) == ConvertWithList(list, number)
    {
      assert list[i..][1..] == list[i + 1..];
      var converted := Convert(list[i], number);
      if converted.Some? {
        return converted.value;
      }
    }
    return number;
  }

  /** The parsed almanac. */
  datatype Almanac = Almanac(
    seeds: seq<nat>,
    seedToSoil: seq<MapTriplet>,
    soilToFertilizer: seq<MapTriplet>,
    fertilizerToWater: seq<MapTriplet>,
    waterToLight: seq<MapTriplet>,
    lightToTemperature: seq<MapTriplet>,
    temperatureToHumidity: seq<MapTriplet>,
    humidityToLocation: seq<MapTriplet>)

  /** The seven maps, from seed to location. */
  function Maps(a: Almanac): seq<seq<MapTriplet>>
  {
    [a.seedToSoil, a.soilToFertilizer, a.fertilizerToWater, a.waterToLight,
     a.lightToTemperature, a.temperatureToHumidity, a.humidityToLocation]
  }

  predicate ValidAlmanac(a: Almanac)
  {
    forall i :: 0 <= i < |Maps(a)| ==> ValidMap(Maps(a)[i])
  }

  /** The maps applied one after the other, the first one first. */
  function Chain(maps: seq<seq<MapTriplet>>, n: nat): nat
    requires forall i :: 0 <= i < |maps| ==> ValidMap(maps[i])
  {
    if maps == [] then n else Chain(maps[1..], ConvertWithList(maps[0], n))
  }

  /** Chaining maps composes: the maps of `m1 + m2` act as `m1` and then `m2`. */
  lemma {:induction false} ChainAppend(m1: seq<seq<MapTriplet>>, m2: seq<seq<MapTriplet>>, n: nat)
    requires forall i :: 0 <= i < |m1| ==> ValidMap(m1[i])
    requires forall i :: 0 <= i < |m2| ==> ValidMap(m2[i])
    ensures forall i :: 0 <= i < |m1 + m2| ==> ValidMap((m1 + m2)[i])
    ensures Chain(m1 + m2, n) == Chain(m2, Chain(m1, n))
  {
    if m1 == [] {
      assert m1 + m2 == m2;
    } else {
      assert (m1 + m2)[1..] == m1[1..] + m2;
      ChainAppend(m1[1..], m2, ConvertWithList(m1[0], n));
    }
  }

  /** A number no triplet of any map covers passes through the chain unchanged. */
  lemma {:induction false} ChainUncovered(maps: seq<seq<MapTriplet>>, n: nat)
    requires forall i :: 0 <= i < |maps| ==> ValidMap(maps[i])
    requires forall i, j :: 0 <= i < |maps| && 0 <= j < |maps[i]| ==> !Covers(maps[i][j], n)
    ensures Chain(maps, n) == n
  {
    if maps != [] {
      ConvertWithListMeaning(maps[0], n);
      assert NoneCovers(maps[0], |maps[0]|, n);
      assert forall i, j :: 0 <= i < |maps[1..]| && 0 <= j < |maps[1..][i]| ==> !Covers(maps[1..][i][j], n) by {
        forall i, j | 0 <= i < |maps[1..]| && 0 <= j < |maps[1..][i]|
          ensures !Covers(maps[1..][i][j], n)
        {
          assert maps[1..][i] == maps[i + 1];
        }
      }
      ChainUncovered(maps[1..], n);
    }
  }

  /** The closure in `get_locations_from_iter`: seed to soil to ... to location. */
  function Location(a: Almanac, seed: nat): nat
    requires ValidAlmanac(a)
  {
    assert ValidMap(Maps(a)[0]) && ValidMap(Maps(a)[1]) && ValidMap(Maps(a)[2]) && ValidMap(Maps(a)[3]);
    assert ValidMap(Maps(a)[4]) && ValidMap(Maps(a)[5]) && ValidMap(Maps(a)[6]);
    var soil := ConvertWithList(a.seedToSoil, seed);
    var fertilizer := ConvertWithList(a.soilToFertilizer, soil);
    var water := ConvertWithList(a.fertilizerToWater, fertilizer);
    var light := ConvertWithList(a.waterToLight, water);
    var temperature := ConvertWithList(a.lightToTemperature, light);
    var humidity := ConvertWithList(a.temperatureToHumidity, temperature);
    ConvertWithList(a.humidityToLocation, humidity)
  }

  /** The location is the seven maps applied in their order, seed to soil first. */
  lemma LocationIsChain(a: Almanac, seed: nat)
    requires ValidAlmanac(a)
    ensures Location(a, seed) == Chain(Maps(a), seed)
  {
    var m := Maps(a);
    assert ValidMap(m[0]) && ValidMap(m[1]) && ValidMap(m[2]) && ValidMap(m[3]);
    assert ValidMap(m[4]) && ValidMap(m[5]) && ValidMap(m[6]);
    var soil := ConvertWithList(a.seedToSoil, seed);
    var fertilizer := ConvertWithList(a.soilToFertilizer, soil);
    var water := ConvertWithList(a.fertilizerToWater, fertilizer);
    var light := ConvertWithList(a.waterToLight, water);
    var temperature := ConvertWithList(a.lightToTemperature, light);
    var humidity := ConvertWithList(a.temperatureToHumidity, temperature);
    assert Chain(m[7..], Location(a, seed)) == Location(a, seed);
    assert Chain(m[6..], humidity) == Location(a, seed);
    assert Chain(m[5..], temperature) == Location(a, seed);
    assert Chain(m[4..], light) == Location(a, seed);
    assert Chain(m[3..], water) == Location(a, seed);
    assert Chain(m[2..], fertilizer) == Location(a, seed);
    assert Chain(m[1..], soil) == Location(a, seed);
  }

  /** `Almanac::get_locations`: the location of each seed, in the order of the seeds. */
  function GetLocations(a: Almanac): (r: seq<nat>)
    requires ValidAlmanac(a)
  {
    seq(|a.seeds|, i requires 0 <= i < |a.seeds| => Location(a, a.seeds[i]))
  }

  /** `start..start + length`. */
  function Range(start: nat, length: nat): seq<nat>
  {
    seq(length, i requires 0 <= i < length => start + i)
  }

  /**
   * The seeds read as `(start, length)` pairs by `array_chunks`, each pair
   * expanded to its range; a trailing odd number is dropped.
   */
  function SeedRanges(seeds: seq<nat>): seq<nat>
    decreases |seeds|
  {
    if |seeds| < 2 then [] else Range(seeds[0], seeds[1]) + SeedRanges(seeds[2..])
  }

  /** A range holds exactly the numbers from its start up to, not including, its end. */
  lemma RangeMeaning(start: nat, length: nat, n: nat)
    ensures n in Range(start, length) <==> start <= n < start + length
  {
    if start <= n < start + length {
      assert Range(start, length)[n - start] == n;
    }
  }

  /** `n` lies in the range of pair `k` of the seeds. */
  predicate InPair(seeds: seq<nat>, k: nat, n: nat)
  {
    2 * k + 1 < |seeds| && seeds[2 * k] <= n < seeds[2 * k] + seeds[2 * k + 1]
  }

  /** Pair `k + 1` of the seeds is pair `k` of the seeds after the first pair. */
  lemma InPairShift(seeds: seq<nat>, k: nat, n: nat)
    requires |seeds| >= 2
    ensures InPair(seeds, k + 1, n) <==> InPair(seeds[2..], k, n)
  {
    if 2 * k + 1 < |seeds[2..]| {
      assert seeds[2..][2 * k] == seeds[2 * (k + 1)] && seeds[2..][2 * k + 1] == seeds[2 * (k + 1) + 1];
    }
  }

  /** The seed ranges hold exactly the numbers inside one of the pairs' ranges. */
  lemma {:induction false} SeedRangesMeaning(seeds: seq<nat>, n: nat)
    ensures n in SeedRanges(seeds) <==> exists k: nat :: InPair(seeds, k, n)
    decreases |seeds|
  {
    if |seeds| >= 2 {
      var rest := seeds[2..];
      SeedRangesMeaning(rest, n);
      RangeMeaning(seeds[0], seeds[1], n);
      assert SeedRanges(seeds) == Range(seeds[0], seeds[1]) + SeedRanges(rest);
      if n in Range(seeds[0], seeds[1]) {
        assert InPair(seeds, 0, n);
      } else if n in SeedRanges(rest) {
        var k: nat :| InPair(rest, k, n);
        InPairShift(seeds, k, n);
        assert InPair(seeds, k + 1, n);
      }
      if exists k: nat :: InPair(seeds, k, n) {
        var k: nat :| InPair(seeds, k, n);
        if k > 0 {
          InPairShift(seeds, k - 1, n);
        } else {
          assert n in Range(seeds[0], seeds[1]);
        }
      }
    } else {
      assert forall k: nat :: !InPair(seeds, k, n);
    }
  }

  /** The seed ranges are as many numbers as the pairs' lengths add up to. */
  function PairLengths(seeds: seq<nat>): nat
    decreases |seeds|
  {
    if |seeds| < 2 then 0 else seeds[1] + PairLengths(seeds[2..])
  }

  lemma {:induction false} SeedRangesLength(seeds: seq<nat>)
    ensures |SeedRanges(seeds)| == PairLengths(seeds)
    decreases |seeds|
  {
    if |seeds| >= 2 {
      SeedRangesLength(seeds[2..]);
    }
  }

  /** A number left over after the last pair is not a seed. */
  lemma {:induction false} OddSeedDropped(seeds: seq<nat>, x: nat)
    requires |seeds| % 2 == 0
    ensures SeedRanges(seeds + [x]) == SeedRanges(seeds)
    decreases |seeds|
  {
    if |seeds| >= 2 {
      assert (seeds + [x])[2..] == seeds[2..] + [x];
      OddSeedDropped(seeds[2..], x);
    } else {
      assert |seeds + [x]| < 2;
    }
  }

  /** `reinterpret_seed_numbers_and_get_locations`: the location of every seed in the seed ranges. */
  function ReinterpretedLocations(a: Almanac): seq<nat>
    requires ValidAlmanac(a)
  {
    var seeds := SeedRanges(a.seeds);
    seq(|seeds|, i requires 0 <= i < |seeds| => Location(a, seeds[i]))
  }

  /** A location comes back exactly when it is the location of a seed in one of the pairs' ranges. */
  lemma ReinterpretedLocationsMeaning(a: Almanac, l: nat)
    requires ValidAlmanac(a)
    ensures l in ReinterpretedLocations(a) <==> exists k: nat, n: nat :: InPair(a.seeds, k, n) && Location(a, n) == l
  {
    var seeds := SeedRanges(a.seeds);
    var r := ReinterpretedLocations(a);
    if l in r {
      var i :| 0 <= i < |r| && r[i] == l;
      SeedRangesMeaning(a.seeds, seeds[i]);
    }
    if exists k: nat, n: nat :: InPair(a.seeds, k, n) && Location(a, n) == l {
      var k: nat, n: nat :| InPair(a.seeds, k, n) && Location(a, n) == l;
      SeedRangesMeaning(a.seeds, n);
      var i :| 0 <= i < |seeds| && seeds[i] == n;
      assert r[i] == l;
    }
  }

  /** The sample almanac. */
  function SampleAlmanac(): Almanac
  {
    Almanac(
      [79, 14, 55, 13],
      [MapTriplet(50, 98, 2), MapTriplet(52, 50, 48)],
      [MapTriplet(0, 15, 37), MapTriplet(37, 52, 2), MapTriplet(39, 0, 15)],
      [MapTriplet(49, 53, 8), MapTriplet(0, 11, 42), MapTriplet(42, 0, 7), MapTriplet(57, 7, 4)],
      [MapTriplet(88, 18, 7), MapTriplet(18, 25, 70)],
      [MapTriplet(45, 77, 23), MapTriplet(81, 45, 19), MapTriplet(68, 64, 13)],
      [MapTriplet(0, 69, 1), MapTriplet(1, 0, 69)],
      [MapTriplet(60, 56, 37), MapTriplet(56, 93, 4)])
  }

  lemma SampleValid()
    ensures ValidAlmanac(SampleAlmanac())
  {
    var m := Maps(SampleAlmanac());
    assert ValidMap(m[0]) && ValidMap(m[1]) && ValidMap(m[2]) && ValidMap(m[3]);
    assert ValidMap(m[4]) && ValidMap(m[5]) && ValidMap(m[6]);
  }

  /** Seed 79: soil 81, fertilizer 81, water 81, light 74, temperature 78, humidity 78, location 82. */
  lemma SampleSeed79()
    ensures ValidAlmanac(SampleAlmanac()) && Location(SampleAlmanac(), 79) == 82
  {
    var a := SampleAlmanac();
    SampleValid();
    assert ConvertWithList(a.seedToSoil, 79) == 81;
    assert ConvertWithList(a.soilToFertilizer, 81) == 81;
    assert ConvertWithList(a.fertilizerToWater, 81) == 81;
    assert ConvertWithList(a.waterToLight, 81) == 74;
    assert ConvertWithList(a.lightToTemperature, 74) == 78;
    assert ConvertWithList(a.temperatureToHumidity, 78) == 78;
    assert ConvertWithList(a.humidityToLocation, 78) == 82;
  }

  /** Seed 14: soil 14, fertilizer 53, water 49, light 42, temperature 42, humidity 43, location 43. */
  lemma SampleSeed14()
    ensures ValidAlmanac(SampleAlmanac()) && Location(SampleAlmanac(), 14) == 43
  {
    var a := SampleAlmanac();
    SampleValid();
    assert ConvertWithList(a.seedToSoil, 14) == 14;
    assert ConvertWithList(a.soilToFertilizer, 14) == 53;
    assert ConvertWithList(a.fertilizerToWater, 53) == 49;
    assert ConvertWithList(a.waterToLight, 49) == 42;
    assert ConvertWithList(a.lightToTemperature, 42) == 42;
    assert ConvertWithList(a.temperatureToHumidity, 42) == 43;
    assert ConvertWithList(a.humidityToLocation, 43) == 43;
  }

  /** Seed 55: soil 57, fertilizer 57, water 53, light 46, temperature 82, humidity 82, location 86. */
  lemma SampleSeed55()
    ensures ValidAlmanac(SampleAlmanac()) && Location(SampleAlmanac(), 55) == 86
  {
    var a := SampleAlmanac();
    SampleValid();
    assert ConvertWithList(a.seedToSoil, 55) == 57;
    assert ConvertWithList(a.soilToFertilizer, 57) == 57;
    assert ConvertWithList(a.fertilizerToWater, 57) == 53;
    assert ConvertWithList(a.waterToLight, 53) == 46;
    assert ConvertWithList(a.lightToTemperature, 46) == 82;
    assert ConvertWithList(a.temperatureToHumidity, 82) == 82;
    assert ConvertWithList(a.humidityToLocation, 82) == 86;
  }

  /** Seed 13: soil 13, fertilizer 52, water 41, light 34, temperature 34, humidity 35, location 35. */
  lemma SampleSeed13()
    ensures ValidAlmanac(SampleAlmanac()) && Location(SampleAlmanac(), 13) == 35
  {
    var a := SampleAlmanac();
    SampleValid();
    assert ConvertWithList(a.seedToSoil, 13) == 13;
    assert ConvertWithList(a.soilToFertilizer, 13) == 52;
    assert ConvertWithList(a.fertilizerToWater, 52) == 41;
    assert ConvertWithList(a.waterToLight, 41) == 34;
    assert ConvertWithList(a.lightToTemperature, 34) == 34;
    assert ConvertWithList(a.temperatureToHumidity, 34) == 35;
    assert ConvertWithList(a.humidityToLocation, 35) == 35;
  }

  /** The locations of an almanac with four seeds. */
  lemma FourLocations(a: Almanac, s0: nat, s1: nat, s2: nat, s3: nat)
    requires ValidAlmanac(a) && a.seeds == [s0, s1, s2, s3]
    ensures GetLocations(a) == [Location(a, s0), Location(a, s1), Location(a, s2), Location(a, s3)]
  {
  }

  /** The sample's seeds reach locations 82, 43, 86 and 35. */
  lemma SampleLocations(a: Almanac)
    requires a == SampleAlmanac()
    ensures ValidAlmanac(a)
    ensures GetLocations(a) == [82, 43, 86, 35]
  {
    SampleSeed79();
    SampleSeed14();
    SampleSeed55();
    SampleSeed13();
    FourLocations(a, 79, 14, 55, 13);
  }
}

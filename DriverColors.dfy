/**
 * `get_driver_colors`: walks the session's result rows in order and gives
 * each driver the provider's team colour without its leading `#`; a driver
 * whose colour an earlier row already took gets the neutral grey instead.
 */
module DriverColors {
  import opened Sequences

  /** The neutral colour given to a driver whose colour is already taken. */
  const Fallback: string := "808080"

  /** `str.lstrip('#')`: every leading `#` removed. */
  function StripHashes(c: string): (r: string)
    ensures |r| <= |c| && r == c[|c| - |r|..]
    ensures forall j :: 0 <= j < |c| - |r| ==> c[j] == '#'
    ensures r == [] || r[0] != '#'
  {
    if |c| > 0 && c[0] == '#' then StripHashes(c[1..]) else c
  }

  /** The stripped provider colour of each result row, in row order. */
  function ProviderColours(drivers: seq<string>, providerColor: string -> string): seq<string>
  {
    seq(|drivers|, i requires 0 <= i < |drivers| => StripHashes(providerColor(drivers[i])))
  }

  /**
   * The colour that row i is given, stated without the loop's set: its own
   * stripped colour, unless an earlier row's stripped colour is the same.
   */
  function KeptColour(colours: seq<string>, i: nat): string
    requires i < |colours|
  {
    if colours[i] in colours[..i] then Fallback else colours[i]
  }

  /**
   * Two different rows keep the same colour only when it is the fallback:
   * only the first row that claims a colour keeps it.
   */
  lemma KeptColoursDistinct(colours: seq<string>, i: nat, j: nat)
    requires i < j < |colours|
    ensures KeptColour(colours, i) == KeptColour(colours, j) ==> KeptColour(colours, j) == Fallback
    ensures colours[i] == colours[j] ==> KeptColour(colours, j) == Fallback
    ensures colours[i] !in colours[..i] ==> KeptColour(colours, i) == colours[i]
  {
    if colours[i] == colours[j] {
      assert colours[..j][i] == colours[j];
    }
  }

  /** Row j is the last of the first n rows to carry its driver. */
  predicate LastRowOf(drivers: seq<string>, j: nat, n: nat)
    requires j < n <= |drivers|
  {
    forall k :: j < k < n ==> drivers[k] != drivers[j]
  }

  /** No colour other than the fallback is held by two drivers. */
  ghost predicate SharedOnlyFallback(colors: map<string, string>)
  {
    forall d, e :: d in colors && e in colors && d != e && colors[d] == colors[e] ==> colors[d] == Fallback
  }

  /** The loop's set of used colours, against the stripped colours of the first n rows. */
  ghost predicate UsedAre(usedColors: set<string>, colours: seq<string>, n: nat)
    requires n <= |colours|
  {
    forall c :: c != Fallback ==> (c in usedColors <==> c in colours[..n])
  }

  /** Every driver of the first n rows has, at its last row, the kept colour of that row. */
  ghost predicate LastRowsKept(colors: map<string, string>, drivers: seq<string>, colours: seq<string>, n: nat)
    requires n <= |drivers| == |colours|
  {
    forall j :: 0 <= j < n && LastRowOf(drivers, j, n) ==> drivers[j] in colors && colors[drivers[j]] == KeptColour(colours, j)
  }

  /** Every stored colour is in the loop's set of used colours. */
  ghost predicate ValuesUsed(colors: map<string, string>, usedColors: set<string>)
  {
    forall e :: e in colors ==> colors[e] in usedColors
  }

  /** The colour chosen for row n is the kept colour, and the used set grows to cover row n. */
  lemma UsedStep(usedColors: set<string>, colours: seq<string>, n: nat, color: string)
    requires n < |colours| && UsedAre(usedColors, colours, n)
    requires color == if colours[n] in usedColors then Fallback else colours[n]
    ensures color == KeptColour(colours, n)
    ensures UsedAre(usedColors + {color}, colours, n + 1)
  {
    PrefixExtend(colours, n);
  }

  /** Giving a driver an unused colour, or the fallback, keeps non-fallback colours unshared. */
  lemma SharedStep(colors: map<string, string>, usedColors: set<string>, d: string, color: string)
    requires SharedOnlyFallback(colors) && ValuesUsed(colors, usedColors)
    requires color == Fallback || color !in usedColors
    ensures SharedOnlyFallback(colors[d := color])
    ensures ValuesUsed(colors[d := color], usedColors + {color})
  {
  }

  /** Recording row n's colour keeps every driver's last-row colour. */
  lemma LastRowStep(colors: map<string, string>, drivers: seq<string>, colours: seq<string>, n: nat, color: string)
    requires n < |drivers| == |colours| && LastRowsKept(colors, drivers, colours, n)
    requires color == KeptColour(colours, n)
    ensures LastRowsKept(colors[drivers[n] := color], drivers, colours, n + 1)
  {
    var after := colors[drivers[n] := color];
    forall j | 0 <= j < n + 1 && LastRowOf(drivers, j, n + 1)
      ensures drivers[j] in after && after[drivers[j]] == KeptColour(colours, j)
    {
      if j < n {
        assert drivers[n] != drivers[j];
        assert LastRowOf(drivers, j, n);
      }
    }
  }

  /** The drivers that have a colour are those of the first n rows. */
  ghost predicate KeysAre(colors: map<string, string>, drivers: seq<string>, n: nat)
    requires n <= |drivers|
  {
    forall d :: d in colors <==> d in drivers[..n]
  }

  /** Every stored colour is the fallback or the driver's own stripped colour. */
  ghost predicate StoredColours(colors: map<string, string>, providerColor: string -> string)
  {
    forall d :: d in colors ==> colors[d] == Fallback || colors[d] == StripHashes(providerColor(d))
  }

  /** Recording row n's driver extends the key set and stores an allowed colour. */
  lemma KeysStep(colors: map<string, string>, drivers: seq<string>, providerColor: string -> string, n: nat, color: string)
    requires n < |drivers| && KeysAre(colors, drivers, n) && StoredColours(colors, providerColor)
    requires color == Fallback || color == StripHashes(providerColor(drivers[n]))
    ensures KeysAre(colors[drivers[n] := color], drivers, n + 1)
    ensures StoredColours(colors[drivers[n] := color], providerColor)
  {
    PrefixExtend(drivers, n);
  }

  /** What the loop of GetDriverColors keeps after the first n rows. */
  ghost predicate ColorsSoFar(drivers: seq<string>, providerColor: string -> string, colours: seq<string>, n: nat,
                              colors: map<string, string>, usedColors: set<string>)
    requires n <= |drivers| == |colours|
  {
    && KeysAre(colors, drivers, n)
    && StoredColours(colors, providerColor)
    && LastRowsKept(colors, drivers, colours, n)
    && SharedOnlyFallback(colors)
    && UsedAre(usedColors, colours, n)
    && ValuesUsed(colors, usedColors)
  }

  /** One iteration of the loop keeps ColorsSoFar. */
  lemma ColorsStep(drivers: seq<string>, providerColor: string -> string, colours: seq<string>, n: nat,
                   colors: map<string, string>, usedColors: set<string>)
    requires n < |drivers| == |colours| && colours[n] == StripHashes(providerColor(drivers[n]))
    requires ColorsSoFar(drivers, providerColor, colours, n, colors, usedColors)
    ensures var color := if colours[n] in usedColors then Fallback else colours[n];
      ColorsSoFar(drivers, providerColor, colours, n + 1, colors[drivers[n] := color], usedColors + {color})
  {
    var color := if colours[n] in usedColors then Fallback else colours[n];
    UsedStep(usedColors, colours, n, color);
    SharedStep(colors, usedColors, drivers[n], color);
    LastRowStep(colors, drivers, colours, n, color);
    KeysStep(colors, drivers, providerColor, n, color);
  }

  /** After the last row, the loop's facts are the colour map's promises. */
  lemma ColorsDone(drivers: seq<string>, providerColor: string -> string, colors: map<string, string>, usedColors: set<string>)
    requires ColorsSoFar(drivers, providerColor, ProviderColours(drivers, providerColor), |drivers|, colors, usedColors)
    ensures forall d :: d in colors <==> d in drivers
    ensures forall d :: d in colors ==> colors[d] == Fallback || colors[d] == StripHashes(providerColor(d))
    ensures forall d :: d in colors ==> colors[d] == [] || colors[d][0] != '#'
    ensures forall i :: 0 <= i < |drivers| && LastRowOf(drivers, i, |drivers|) ==>
      colors[drivers[i]] == KeptColour(ProviderColours(drivers, providerColor), i)
    ensures SharedOnlyFallback(colors)
  {
    assert drivers[..|drivers|] == drivers;
  }

  /** The colour map for the result rows `drivers` (abbreviations), in row order. */
  method GetDriverColors(drivers: seq<string>, providerColor: string -> string) returns (colors: map<string, string>)
    ensures forall d :: d in colors <==> d in drivers
    ensures forall d :: d in colors ==> colors[d] == Fallback || colors[d] == StripHashes(providerColor(d))
    ensures forall d :: d in colors ==> colors[d] == [] || colors[d][0] != '#'
    ensures forall i :: 0 <= i < |drivers| && LastRowOf(drivers, i, |drivers|) ==>
      colors[drivers[i]] == KeptColour(ProviderColours(drivers, providerColor), i)
    ensures SharedOnlyFallback(colors)
  {
    ghost var colours := ProviderColours(drivers, providerColor);
    colors := map[];
    var usedColors: set<string> := {};
    for i := 0 to |drivers|
      invariant ColorsSoFar(drivers, providerColor, colours, i, colors, usedColors)
    {
      ColorsStep(drivers, providerColor, colours, i, colors, usedColors);
      var abbreviation := drivers[i];
      var color := StripHashes(providerColor(abbreviation));
      if color in usedColors {
        color := Fallback;
      }
      colors := colors[abbreviation := color];
      usedColors := usedColors + {color};
    }
    ColorsDone(drivers, providerColor, colors, usedColors);
  }

  /** Two drivers with the provider colour `#1E90FF`: the first keeps `1E90FF`, the second gets the fallback. */
  lemma SharedColourScenario()
    ensures StripHashes("#1E90FF") == "1E90FF"
    ensures KeptColour(["1E90FF", "1E90FF"], 0) == "1E90FF"
    ensures KeptColour(["1E90FF", "1E90FF"], 1) == Fallback
  {
    assert ["1E90FF", "1E90FF"][..1] == ["1E90FF"];
  }
}

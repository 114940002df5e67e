/** RGB2HEX and the part of color_region that follows the k-means call:
    counting the pixels per cluster, ordering the centres, naming them in
    hex and deleting the background (pure black) cluster. The k-means
    clustering, the per-cluster contour images and the pie chart are not
    modelled; the flattened cluster labels and the uint8 centres are inputs. */
module ColorRegion {
  import opened Common

  /** One uint8 colour channel. */
  type Channel = x: int | 0 <= x < 256

  datatype Rgb = Rgb(r: Channel, g: Channel, b: Channel)

  const Black: Rgb := Rgb(0, 0, 0)

  predicate IsHexDigit(ch: char)
  {
    ('0' <= ch <= '9') || ('a' <= ch <= 'f')
  }

  /** The lowercase hexadecimal digit for d (format code x). */
  function DigitChar(d: nat): (ch: char)
    requires d < 16
    ensures IsHexDigit(ch)
  {
    if d < 10 then (48 + d) as char else (87 + d) as char
  }

  /** The value of a lowercase hexadecimal digit. */
  function DigitValue(ch: char): (v: Option<nat>)
    ensures v.Some? <==> IsHexDigit(ch)
    ensures v.Some? ==> v.value < 16
  {
    if '0' <= ch <= '9' then Some(ch as nat - 48)
    else if 'a' <= ch <= 'f' then Some(ch as nat - 87)
    else None
  }

  /** RGB2HEX: "#" and, per channel, format code 02x, which writes a value
      below 256 as exactly two lowercase hex digits. */
  function Rgb2Hex(c: Rgb): (s: string)
    ensures |s| == 7 && s[0] == '#'
    ensures forall i :: 1 <= i < 7 ==> IsHexDigit(s[i])
  {
    ['#', DigitChar(c.r / 16), DigitChar(c.r % 16), DigitChar(c.g / 16), DigitChar(c.g % 16),
      DigitChar(c.b / 16), DigitChar(c.b % 16)]
  }

  /** The channel written by two hex digits. */
  function ParseHex2(hi: char, lo: char): (v: Option<Channel>)
  {
    match (DigitValue(hi), DigitValue(lo))
    case (Some(a), Some(b)) => Some(16 * a + b)
    case _ => None
  }

  /** The inverse of RGB2HEX: a "#rrggbb" string in lowercase. */
  function HexToRgb(s: string): Option<Rgb>
  {
    if |s| != 7 || s[0] != '#' then None
    else match (ParseHex2(s[1], s[2]), ParseHex2(s[3], s[4]), ParseHex2(s[5], s[6]))
      case (Some(r), Some(g), Some(b)) => Some(Rgb(r, g, b))
      case _ => None
  }

  lemma DigitRoundTrip(d: nat)
    requires d < 16
    ensures DigitValue(DigitChar(d)) == Some(d)
  {
  }

  lemma ChannelRoundTrip(v: Channel)
    ensures ParseHex2(DigitChar(v / 16), DigitChar(v % 16)) == Some(v)
  {
    DigitRoundTrip(v / 16);
    DigitRoundTrip(v % 16);
  }

  /** Decoding the hex name gives back the colour. */
  lemma HexRoundTrip(c: Rgb)
    ensures HexToRgb(Rgb2Hex(c)) == Some(c)
  {
    ChannelRoundTrip(c.r);
    ChannelRoundTrip(c.g);
    ChannelRoundTrip(c.b);
  }

  lemma DigitCharOfValue(ch: char)
    requires IsHexDigit(ch)
    ensures DigitChar(DigitValue(ch).value) == ch
  {
  }

  lemma ParseHex2Inverse(hi: char, lo: char)
    requires ParseHex2(hi, lo).Some?
    ensures var v := ParseHex2(hi, lo).value; DigitChar(v / 16) == hi && DigitChar(v % 16) == lo
  {
    var a := DigitValue(hi).value;
    var b := DigitValue(lo).value;
    assert (16 * a + b) / 16 == a && (16 * a + b) % 16 == b;
    DigitCharOfValue(hi);
    DigitCharOfValue(lo);
  }

  /** Every string the decoder accepts is the hex name of what it decodes to. */
  lemma HexToRgbInverse(s: string)
    requires HexToRgb(s).Some?
    ensures Rgb2Hex(HexToRgb(s).value) == s
  {
    ParseHex2Inverse(s[1], s[2]);
    ParseHex2Inverse(s[3], s[4]);
    ParseHex2Inverse(s[5], s[6]);
  }

  /** Distinct colours have distinct hex names. */
  lemma Rgb2HexInjective(a: Rgb, c: Rgb)
    ensures Rgb2Hex(a) == Rgb2Hex(c) <==> a == c
  {
    HexRoundTrip(a);
    HexRoundTrip(c);
  }

  /** The background test of color_region: "#000000" names pure black only. */
  lemma BlackIff(c: Rgb)
    ensures Rgb2Hex(c) == "#000000" <==> c == Black
  {
    assert Rgb2Hex(Black) == "#000000";
    Rgb2HexInjective(c, Black);
  }

  /** What color_region builds: the colours without the background, their
      hex names, and the (cluster, pixel count) items left for the pie chart. */
  datatype ColorSummary = ColorSummary(rgbColors: seq<Rgb>, hexColors: seq<string>, counts: seq<(nat, nat)>)

  /** dict(sorted(Counter(labels).items())) as a list of items. */
  function CountItems(labels: seq<nat>): (items: seq<(nat, nat)>)
    ensures |items| == |SortedDistinct(labels)|
    ensures forall j :: 0 <= j < |items| ==>
      items[j].0 == SortedDistinct(labels)[j] && items[j].1 == Occurrences(labels, items[j].0)
  {
    var keys := SortedDistinct(labels);
    seq(|keys|, j requires 0 <= j < |keys| => (keys[j], Occurrences(labels, keys[j])))
  }

  /** The items whose key is not k (for key in delete: del counts[key]). */
  function WithoutKey(items: seq<(nat, nat)>, k: nat): (r: seq<(nat, nat)>)
    ensures forall p :: p in r <==> p in items && p.0 != k
    ensures |r| <= |items|
  {
    if items == [] then []
    else
      var tail := WithoutKey(items[1..], k);
      assert forall p :: p in items <==> p == items[0] || p in items[1..] by {
        assert items == [items[0]] + items[1..];
      }
      (if items[0].0 != k then [items[0]] else []) + tail
  }

  /** Deleting a key keeps the remaining items in ascending key order. */
  lemma {:induction false} WithoutKeyKeepsOrder(items: seq<(nat, nat)>, k: nat)
    requires KeysIncreasing(items)
    ensures KeysIncreasing(WithoutKey(items, k))
  {
    if items != [] {
      var tail := WithoutKey(items[1..], k);
      WithoutKeyKeepsOrder(items[1..], k);
      forall j | 0 <= j < |tail| ensures items[0].0 < tail[j].0 {
        assert tail[j] in tail;
        var i :| 0 <= i < |items[1..]| && items[1..][i] == tail[j];
        assert items[i + 1] == tail[j];
      }
    }
  }

  predicate KeysIncreasing(items: seq<(nat, nat)>)
  {
    forall i, j :: 0 <= i < j < |items| ==> items[i].0 < items[j].0
  }

  /** Are all keys valid positions of a sequence of length n? */
  predicate AllBelow(keys: seq<nat>, n: nat)
  {
    forall j :: 0 <= j < |keys| ==> keys[j] < n
  }

  /** [s[i] for i in keys]. */
  function KeyedBy<T>(keys: seq<nat>, s: seq<T>): (r: seq<T>)
    requires AllBelow(keys, |s|)
    ensures |r| == |keys| && forall j :: 0 <= j < |keys| ==> r[j] == s[keys[j]]
  {
    seq(|keys|, j requires 0 <= j < |keys| => s[keys[j]])
  }

  /** [RGB2HEX(c) for c in colors]. */
  function HexNames(colors: seq<Rgb>): (r: seq<string>)
    ensures |r| == |colors| && forall j :: 0 <= j < |colors| ==> r[j] == Rgb2Hex(colors[j])
  {
    seq(|colors|, j requires 0 <= j < |colors| => Rgb2Hex(colors[j]))
  }

  /** The result of color_region for the cluster labels and centres, with
      the IndexErrors of its key/position mix-up:
      ordered_colors = centres indexed by the sorted keys;
      hex_colors and rgb_colors = ordered_colors indexed by the keys again;
      the first "#000000" position is removed from both lists and used as a
      key to delete from the counts. */
  function ColorRegionResult(labels: seq<nat>, centers: seq<Rgb>): (r: Result<ColorSummary>)
    ensures r.Err? ==> r.error == IndexError
    ensures r.Ok? ==> |r.value.hexColors| == |r.value.rgbColors| == |SortedDistinct(labels)| - 1
    ensures r.Ok? ==> forall j :: 0 <= j < |r.value.rgbColors| ==> r.value.hexColors[j] == Rgb2Hex(r.value.rgbColors[j])
  {
    var keys := SortedDistinct(labels);
    if !AllBelow(keys, |centers|) then Err(IndexError)
    else
      var ordered := KeyedBy(keys, centers);
      if !AllBelow(keys, |ordered|) then Err(IndexError)
      else
        var rgb := KeyedBy(keys, ordered);
        var hex := HexNames(rgb);
        match FirstIndex(hex, "#000000")
        case None => Err(IndexError)
        case Some(b) =>
          RemoveAtHexNames(rgb, b);
          Ok(ColorSummary(RemoveAt(rgb, b), RemoveAt(hex, b), WithoutKey(CountItems(labels), b)))
  }

  /** Deleting position i from the names is naming the colours with i deleted. */
  lemma RemoveAtHexNames(colors: seq<Rgb>, i: nat)
    requires i < |colors|
    ensures RemoveAt(HexNames(colors), i) == HexNames(RemoveAt(colors, i))
  {
  }

  /** The comprehension [s[i] for i in keys], raising IndexError at the
      first key that is not a position of s. */
  method IndexByKeys<T>(keys: seq<nat>, s: seq<T>) returns (r: Result<seq<T>>)
    ensures AllBelow(keys, |s|) ==> r == Ok(KeyedBy(keys, s))
    ensures !AllBelow(keys, |s|) ==> r == Err(IndexError)
  {
    var out: seq<T> := [];
    var j := 0;
    while j < |keys|
      invariant 0 <= j <= |keys|
      invariant forall t :: 0 <= t < j ==> keys[t] < |s|
      invariant |out| == j && forall t :: 0 <= t < j ==> out[t] == s[keys[t]]
    {
      if keys[j] >= |s| {
        return Err(IndexError);
      }
      out := out + [s[keys[j]]];
      j := j + 1;
    }
    assert out == KeyedBy(keys, s);
    return Ok(out);
  }

  /** color_region after k-means: the sorted counts, the two comprehensions
      indexed by key, the index_bkg search and the deletions in place. */
  method ColorRegion(labels: seq<nat>, centers: seq<Rgb>) returns (r: Result<ColorSummary>)
    ensures r == ColorRegionResult(labels, centers)
  {
    var keys := SortedDistinct(labels);
    var counts := CountItems(labels);
    var ordered := IndexByKeys(keys, centers);
    if ordered.Err? {
      return Err(IndexError);
    }
    var rgb := IndexByKeys(keys, ordered.value);
    if rgb.Err? {
      return Err(IndexError);
    }
    var rgbColors := rgb.value;
    var hexColors := HexNames(rgbColors);
    var bkg := FirstIndex(hexColors, "#000000");
    if bkg.None? {
      return Err(IndexError);
    }
    var b := bkg.value;
    hexColors := RemoveAt(hexColors, b);
    rgbColors := RemoveAt(rgbColors, b);
    counts := WithoutKey(counts, b);
    return Ok(ColorSummary(rgbColors, hexColors, counts));
  }

  /** FirstIndex finds corresponding positions in two sequences whose
      elements match x and y at the same places. */
  lemma {:induction false} FirstIndexCorresponds<S, T>(s: seq<S>, x: S, t: seq<T>, y: T)
    requires |s| == |t|
    requires forall j :: 0 <= j < |s| ==> (s[j] == x <==> t[j] == y)
    ensures FirstIndex(s, x) == FirstIndex(t, y)
  {
    if s != [] && s[0] != x {
      FirstIndexCorresponds(s[1..], x, t[1..], y);
    }
  }

  /** The first "#000000" name is at the first black colour. */
  lemma FirstBlackName(colors: seq<Rgb>)
    ensures FirstIndex(HexNames(colors), "#000000") == FirstIndex(colors, Black)
  {
    var names := HexNames(colors);
    forall j | 0 <= j < |colors| ensures (names[j] == "#000000" <==> colors[j] == Black) {
      BlackIff(colors[j]);
    }
    FirstIndexCorresponds(names, "#000000", colors, Black);
  }

  /** Indexing by the keys 0..n-1 takes the first n elements. */
  lemma KeyedByRange<T>(keys: seq<nat>, s: seq<T>)
    requires |keys| <= |s| && forall j :: 0 <= j < |keys| ==> keys[j] == j
    ensures AllBelow(keys, |s|) && KeyedBy(keys, s) == s[..|keys|]
  {
  }

  /** The background colour is removed by position and its count by key; the
      two agree when the keys are 0..n-1, leaving one count per colour. */
  lemma CountsAfterRemoval(labels: seq<nat>, b: nat)
    requires forall j :: 0 <= j < |SortedDistinct(labels)| ==> SortedDistinct(labels)[j] == j
    requires b < |SortedDistinct(labels)|
    ensures |WithoutKey(CountItems(labels), b)| == |SortedDistinct(labels)| - 1
  {
    var items := CountItems(labels);
    assert items[b].0 == b;
    RemoveKeyOnce(items, b, b);
  }

  /** On success the present clusters are exactly 0..n-1 and color_region
      returns centres 0..n-1 without the first pure-black one, each hex name
      that of its colour, and as many counts as colours. */
  lemma ColorRegionSuccess(labels: seq<nat>, centers: seq<Rgb>)
    requires ColorRegionResult(labels, centers).Ok?
    ensures var s := ColorRegionResult(labels, centers).value;
      var keys := SortedDistinct(labels);
      var n := |keys|;
      n <= |centers| && (forall j :: 0 <= j < n ==> keys[j] == j) &&
      FirstIndex(centers[..n], Black).Some? &&
      s.rgbColors == RemoveAt(centers[..n], FirstIndex(centers[..n], Black).value) &&
      |s.hexColors| == |s.rgbColors| == |s.counts| == n - 1 &&
      (forall j :: 0 <= j < |s.rgbColors| ==> s.hexColors[j] == Rgb2Hex(s.rgbColors[j]))
  {
    var keys := SortedDistinct(labels);
    var n := |keys|;
    SuccessKeys(labels, centers);
    KeyedByRange(keys, centers);
    KeyedByRange(keys, centers[..n]);
    var rgb := KeyedBy(keys, centers[..n]);
    assert rgb == centers[..n];
    FirstBlackName(rgb);
    var b := FirstIndex(rgb, Black).value;
    CountsAfterRemoval(labels, b);
  }

  /** Passing both index checks forces the keys to be 0..n-1, n at most the
      number of centres: every key is below n = |ordered_colors|. */
  lemma SuccessKeys(labels: seq<nat>, centers: seq<Rgb>)
    requires ColorRegionResult(labels, centers).Ok?
    ensures |SortedDistinct(labels)| <= |centers|
    ensures forall j :: 0 <= j < |SortedDistinct(labels)| ==> SortedDistinct(labels)[j] == j
  {
    var keys := SortedDistinct(labels);
    var n := |keys|;
    assert AllBelow(keys, |centers|);
    assert AllBelow(keys, |KeyedBy(keys, centers)|);
    KeysContiguous(keys);
    if n > 0 {
      assert keys[n - 1] < |centers|;
    }
  }

  /** When the labels are exactly the clusters 0..|centers|-1 (k-means uses
      each one), color_region returns the centres in cluster order without
      the first pure-black one, and one count fewer; with no black centre it
      raises. */
  lemma AllClustersPresent(labels: seq<nat>, centers: seq<Rgb>)
    requires forall c: nat :: c in labels <==> c < |centers|
    ensures FirstIndex(centers, Black).None? ==> ColorRegionResult(labels, centers) == Err(IndexError)
    ensures FirstIndex(centers, Black).Some? ==>
      ColorRegionResult(labels, centers).Ok? &&
      ColorRegionResult(labels, centers).value.rgbColors == RemoveAt(centers, FirstIndex(centers, Black).value) &&
      |ColorRegionResult(labels, centers).value.counts| == |centers| - 1
  {
    var keys := SortedDistinct(labels);
    var n := |centers|;
    IncreasingRange(keys, n);
    KeyedByRange(keys, centers);
    assert centers[..n] == centers;
    var ordered := KeyedBy(keys, centers);
    KeyedByRange(keys, ordered);
    var rgb := KeyedBy(keys, ordered);
    assert rgb == centers;
    FirstBlackName(rgb);
    if FirstIndex(centers, Black).Some? {
      CountsAfterRemoval(labels, FirstIndex(centers, Black).value);
    }
  }

  /** Removing the key of position p from items with distinct increasing
      keys leaves one item fewer. */
  lemma {:induction false} RemoveKeyOnce(items: seq<(nat, nat)>, k: nat, p: nat)
    requires p < |items| && items[p].0 == k
    requires forall i, j :: 0 <= i < j < |items| ==> items[i].0 < items[j].0
    ensures |WithoutKey(items, k)| == |items| - 1
  {
    if p > 0 {
      RemoveKeyOnce(items[1..], k, p - 1);
    } else {
      KeyAbsent(items[1..], k);
    }
  }

  lemma {:induction false} KeyAbsent(items: seq<(nat, nat)>, k: nat)
    requires forall i :: 0 <= i < |items| ==> items[i].0 > k
    ensures WithoutKey(items, k) == items
  {
    if items != [] {
      KeyAbsent(items[1..], k);
    }
  }

  /** Without a black centre there is no background to delete and
      color_region raises. */
  lemma NoBlackCentreRaises(labels: seq<nat>, centers: seq<Rgb>)
    requires Black !in centers
    ensures ColorRegionResult(labels, centers) == Err(IndexError)
  {
    var keys := SortedDistinct(labels);
    if AllBelow(keys, |centers|) {
      var ordered := KeyedBy(keys, centers);
      if AllBelow(keys, |ordered|) {
        var rgb := KeyedBy(keys, ordered);
        assert Black !in rgb by {
          forall j | 0 <= j < |rgb| ensures rgb[j] != Black {
            assert rgb[j] == centers[keys[keys[j]]];
          }
        }
        FirstBlackName(rgb);
      }
    }
  }

  /** If a cluster below a present one has no pixel, the second indexing by
      key runs past the end: color_region raises. */
  lemma MissingClusterRaises(labels: seq<nat>, centers: seq<Rgb>, x: nat, y: nat)
    requires x !in labels && y in labels && x < y
    ensures ColorRegionResult(labels, centers) == Err(IndexError)
  {
    var keys := SortedDistinct(labels);
    GapPushesLast(keys, x, y);
    assert !AllBelow(keys, |keys|) by {
      assert keys[|keys| - 1] >= |keys|;
    }
  }
}

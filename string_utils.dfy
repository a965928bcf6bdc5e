/** `StringUtils`: display helpers that shorten file names and make paths
    relative to the project folder. Lengths are `size_t` while the limits are
    `int`, so every comparison converts the limit to an unsigned value. */
module StringUtils {
  import opened Common

  /** `length > n` with `n` converted to `size_t`: a negative `n` becomes
      larger than any length, so the comparison is false. */
  predicate LengthExceeds(length: nat, n: int)
  {
    0 <= n && length > n
  }

  /** `std::string::substr(pos, count)`: `count` is clipped to what is left
      after `pos`, and a negative `int` count converts to a huge `size_t`, so
      the whole rest is taken. */
  function Substr(s: string, pos: nat, count: int): (r: string)
    requires pos <= |s|
    ensures pos + |r| <= |s| && r == s[pos..pos + |r|]
    ensures 0 <= count ==> |r| == Min(count, |s| - pos)
    ensures count < 0 ==> |r| == |s| - pos
  {
    if 0 <= count && count < |s| - pos then s[pos..pos + count] else s[pos..]
  }

  /** `std::string::substr(pos)` with an `int` position: a negative position
      converts to a huge `size_t`, and a position past the end throws
      `std::out_of_range`. */
  function SubstrFrom(s: string, pos: int): (r: Result<string>)
    ensures r.Ok? <==> 0 <= pos <= |s|
    ensures r.Ok? ==> r.value == s[pos..]
  {
    if 0 <= pos <= |s| then Ok(s[pos..]) else Fatal("std::out_of_range")
  }

  /** StringUtils::shorten. A string that fits is returned as it is; a longer
      one is cut to `maxLength` characters, the last three of which become an
      ellipsis when asked for. */
  function Shorten(str: string, ellipsis: bool, maxLength: int): (r: string)
    ensures !LengthExceeds(|str|, maxLength) ==> r == str
    ensures LengthExceeds(|str|, maxLength) && !ellipsis ==>
      |r| == maxLength && r == str[..maxLength]
    ensures LengthExceeds(|str|, maxLength) && ellipsis && 3 <= maxLength ==>
      |r| == maxLength && r[..maxLength - 3] == str[..maxLength - 3] && r[maxLength - 3..] == "..."
    // Below three characters `maxLength - 3` is negative and converts to a
    // huge count, so the whole string is kept and the ellipsis lengthens it.
    ensures LengthExceeds(|str|, maxLength) && ellipsis && maxLength < 3 ==>
      r == str + "..." && |r| > |str|
  {
    if LengthExceeds(|str|, maxLength) then
      if ellipsis then Substr(str, 0, maxLength - 3) + "..." else Substr(str, 0, maxLength)
    else
      str
  }

  /** The header's defaults: `shorten(str, true, 5)`. */
  function ShortenDefault(str: string): (r: string)
    ensures |str| <= 5 ==> r == str
    ensures |str| > 5 ==> |r| == 5 && r[..2] == str[..2] && r[2..] == "..."
  {
    Shorten(str, true, 5)
  }

  /** StringUtils::splitAndShorten: the two lines under an icon in the
      project view. A string longer than `maxLength` keeps a short head and
      the tail of its second half after an ellipsis; one longer than
      `splitLength` is split in the middle; anything else stays on the first
      line. The ellipsis branch throws when `maxLength / 2 - 2` is negative. */
  function SplitAndShorten(str: string, ellipsis: bool, maxLength: int, splitLength: int)
    : (r: Result<(string, string)>)
    ensures r.Fatal? <==> LengthExceeds(|str|, maxLength) && maxLength < 4
    ensures LengthExceeds(|str|, maxLength) && 6 <= maxLength ==>
      r == Ok((str[..maxLength / 2 - 3], "..." + str[|str| / 2 + maxLength / 2 - 2..]))
    ensures LengthExceeds(|str|, maxLength) && 4 <= maxLength < 6 ==>
      r == Ok((str[..|str| / 2], "..." + str[|str| / 2 + maxLength / 2 - 2..]))
    ensures !LengthExceeds(|str|, maxLength) && LengthExceeds(|str|, splitLength) ==>
      r.Ok? && r.value.0 + r.value.1 == str && |r.value.0| == |str| / 2
    ensures !LengthExceeds(|str|, maxLength) && !LengthExceeds(|str|, splitLength) ==>
      r == Ok((str, ""))
  {
    var len := |str|;
    if LengthExceeds(len, maxLength) then
      var firstHalf := str[..len / 2];
      var secondHalf := str[len / 2..];
      var tail := SubstrFrom(secondHalf, maxLength / 2 - 1 - 1);
      assert 6 <= maxLength ==> Substr(firstHalf, 0, maxLength / 2 - 3) == str[..maxLength / 2 - 3];
      assert 0 <= maxLength / 2 - 2 ==> secondHalf[maxLength / 2 - 2..] == str[len / 2 + maxLength / 2 - 2..];
      if tail.Fatal? then Fatal(tail.message)
      else Ok((Substr(firstHalf, 0, maxLength / 2 - 1 - 2), "..." + tail.value))
    else if LengthExceeds(len, splitLength) then
      Ok((str[..len / 2], str[len / 2..]))
    else
      Ok((str, ""))
  }

  /** With a limit of at least six, the head of a long string is exactly
      `maxLength / 2 - 3` characters, but the tail keeps every character of
      the second half from offset `maxLength / 2 - 2`, so it grows with the
      input and can be longer than `maxLength` itself. */
  lemma SplitAndShortenTailLength(str: string, maxLength: int, splitLength: int)
    requires 6 <= maxLength < |str|
    ensures var r := SplitAndShorten(str, true, maxLength, splitLength);
      r.Ok? && |r.value.0| == maxLength / 2 - 3 &&
      |r.value.1| == 3 + |str| - |str| / 2 - (maxLength / 2 - 2)
  {
  }

  /** `s` holds `sub` starting at index `k`. */
  predicate OccursAt(s: string, sub: string, k: int)
  {
    0 <= k && k + |sub| <= |s| && s[k..k + |sub|] == sub
  }

  /** `std::string::find(sub, from)`: the least index at or after `from` where
      `sub` occurs, if there is one. */
  function FindFrom(s: string, sub: string, from: nat): (r: Option<nat>)
    requires from <= |s|
    ensures r.Some? ==> from <= r.value && OccursAt(s, sub, r.value)
    ensures r.Some? ==> forall j :: from <= j < r.value ==> !OccursAt(s, sub, j)
    ensures r.None? ==> forall j :: from <= j ==> !OccursAt(s, sub, j)
    decreases |s| - from
  {
    if from + |sub| > |s| then None
    else if s[from..from + |sub|] == sub then Some(from)
    else FindFrom(s, sub, from + 1)
  }

  /** StringUtils::getFilePathRelativeToProjectFolder, with the project
      folder passed in: the part of `path` after the first occurrence of the
      project folder, or `path` itself when the folder does not occur. */
  function RelativeToProjectFolder(path: string, projectFolder: string): (r: string)
    ensures (forall j :: !OccursAt(path, projectFolder, j)) ==> r == path
    ensures forall k ::
      (OccursAt(path, projectFolder, k) && forall j :: 0 <= j < k ==> !OccursAt(path, projectFolder, j))
      ==> r == path[k + |projectFolder|..]
  {
    match FindFrom(path, projectFolder, 0)
    case None => path
    case Some(found) =>
      assert forall k ::
        (OccursAt(path, projectFolder, k) && forall j :: 0 <= j < k ==> !OccursAt(path, projectFolder, j))
        ==> k == found;
      path[found + |projectFolder|..]
  }
}

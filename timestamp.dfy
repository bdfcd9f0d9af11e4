/**
 * `parse_ts` (src/main.rs:106-116): read the text before the first '.' of a file name
 * as seconds since the epoch and format it in local time; keep the name when that
 * text does not parse.
 */
module Timestamp {
  import opened Wrappers

  /**
   * The date library as `parse_ts` uses it: `parse` reads a count of seconds since
   * the epoch (format `%s`), `format` writes an instant in the local time zone
   * (format `%e %b %Y %T`).
   */
  datatype DateCodec<!T> = DateCodec(parse: string -> Option<T>, format: T -> string)

  /** `name.split(".").nth(0)`: the text before the first '.', or the whole name. */
  function FirstSegment(name: string): (segment: string)
    ensures segment <= name
    ensures '.' !in segment
    ensures |segment| < |name| ==> name[|segment|] == '.'
  {
    if name == [] || name[0] == '.' then [] else [name[0]] + FirstSegment(name[1..])
  }

  /** The three properties of FirstSegment's contract pick out one prefix only. */
  lemma {:induction false} FirstSegmentUnique(name: string, segment: string)
    requires segment <= name && '.' !in segment
    requires |segment| < |name| ==> name[|segment|] == '.'
    ensures FirstSegment(name) == segment
    decreases |name|
  {
    if segment != [] {
      assert segment[0] in segment;
      FirstSegmentUnique(name[1..], segment[1..]);
      assert segment == [segment[0]] + segment[1..];
    }
  }

  /** The first segment of `stem.rest` is `stem` when `stem` has no '.'. */
  lemma FirstSegmentOfJoin(stem: string, rest: string)
    requires '.' !in stem
    ensures FirstSegment(stem + "." + rest) == stem
  {
    FirstSegmentUnique(stem + "." + rest, stem);
  }

  /** The label `parse_ts` gives a file name. */
  function ParseTs<T>(name: string, codec: DateCodec<T>): string {
    match codec.parse(FirstSegment(name))
    case Some(instant) => codec.format(instant)
    case None => name
  }

  /**
   * Only the stem before the first '.' is read: when it parses, the label is the
   * formatted instant whatever follows the '.'; when it does not, the label is the
   * whole name, extension included.
   */
  lemma ParseTsReadsStem<T>(stem: string, extension: string, codec: DateCodec<T>)
    requires '.' !in stem
    ensures codec.parse(stem).Some? ==>
      ParseTs(stem + "." + extension, codec) == codec.format(codec.parse(stem).value)
    ensures codec.parse(stem).None? ==>
      ParseTs(stem + "." + extension, codec) == stem + "." + extension
  {
    FirstSegmentOfJoin(stem, extension);
  }

  /** A name without '.' is parsed whole, and kept when it does not parse. */
  lemma ParseTsWithoutDot<T>(name: string, codec: DateCodec<T>)
    requires '.' !in name
    ensures codec.parse(name).Some? ==> ParseTs(name, codec) == codec.format(codec.parse(name).value)
    ensures codec.parse(name).None? ==> ParseTs(name, codec) == name
  {
    FirstSegmentUnique(name, name);
  }
}

/**
 * Validation of the query arguments of a conversion request.
 *
 * Every argument is read by name; a missing required argument, a value the
 * number conversion refuses, or a number out of its range rejects the whole
 * request (status 400). Optional arguments fall back to fixed defaults.
 */
module Arguments {
  import opened Common

  /** Query arguments by name, with the value the framework hands back for each. */
  type Query = map<string, string>

  /**
   * The interpreter's `int()` and `float()` conversions, as partial functions;
   * `None` stands for the ValueError they raise.
   */
  datatype Conversions = Conversions(toInt: string -> Option<int>, toFloat: string -> Option<real>)

  /** The rendering options of one request; built only when every argument passed. */
  datatype Params = Params(
    url: string,
    width: int,
    height: int,
    reserveBlank: int,
    fontFace: string,
    fontSize: real,
    textOpacity: real,
    commentDuration: real,
    reduceComments: bool,
    outputFilename: string)

  const MaxHeight: int := 65535
  const DefaultReserveBlank: int := 0
  const DefaultFontFace: string := "SimHei"
  const DefaultFontSize: real := 25.0
  const DefaultTextOpacity: real := 1.0
  const DefaultCommentDuration: real := 5.0
  const DefaultOutputFilename: string := "comments.ass"

  /** A required argument: `None` when it is missing. */
  function Argument(q: Query, name: string): Option<string> {
    if name in q then Some(q[name]) else None
  }

  /** A required number: `None` when it is missing or does not convert. */
  function Number<T>(q: Query, name: string, convert: string -> Option<T>): Option<T> {
    if name in q then convert(q[name]) else None
  }

  /**
   * An optional number: the default when absent; otherwise the converted value,
   * which must satisfy `ok` (the default is never checked).
   */
  function OptionalNumber<T>(q: Query, name: string, convert: string -> Option<T>, ok: T -> bool, default: T): Option<T> {
    if name !in q then Some(default)
    else
      match convert(q[name])
      case None => None
      case Some(v) => if ok(v) then Some(v) else None
  }

  /** An optional string argument: its value, or the default when absent. */
  function OptionalText(q: Query, name: string, default: string): string {
    if name in q then q[name] else default
  }

  /** Whether the query would be accepted: the conditions, one per argument. */
  predicate Acceptable(q: Query, conv: Conversions) {
    && "url" in q
    && "w" in q && conv.toInt(q["w"]).Some? && conv.toInt(q["w"]).value > 0
    && "h" in q && conv.toInt(q["h"]).Some? && 0 < conv.toInt(q["h"]).value <= MaxHeight
    && ("p" in q ==> conv.toInt(q["p"]).Some? && conv.toInt(q["p"]).value >= 0)
    && ("fs" in q ==> conv.toFloat(q["fs"]).Some? && conv.toFloat(q["fs"]).value > 0.0)
    && ("a" in q ==> conv.toFloat(q["a"]).Some? && 0.0 <= conv.toFloat(q["a"]).value <= 1.0)
    && ("l" in q ==> conv.toFloat(q["l"]).Some?)
  }

  /**
   * The arguments in the order the handler reads them, stopping at the first
   * failure. The result exists exactly when the query is acceptable, and then
   * each field is the converted argument or, when absent, its default.
   */
  function Parse(q: Query, conv: Conversions): (r: Option<Params>)
    ensures r.Some? <==> Acceptable(q, conv)
    ensures r.Some? ==>
      && r.value.url == q["url"]
      && conv.toInt(q["w"]) == Some(r.value.width) && r.value.width > 0
      && conv.toInt(q["h"]) == Some(r.value.height) && 0 < r.value.height <= MaxHeight
      && r.value.reserveBlank >= 0
      && r.value.fontSize > 0.0
      && 0.0 <= r.value.textOpacity <= 1.0
      && ("p" in q ==> conv.toInt(q["p"]) == Some(r.value.reserveBlank))
      && ("p" !in q ==> r.value.reserveBlank == DefaultReserveBlank)
      && ("fn" in q ==> r.value.fontFace == q["fn"])
      && ("fn" !in q ==> r.value.fontFace == DefaultFontFace)
      && ("fs" in q ==> conv.toFloat(q["fs"]) == Some(r.value.fontSize))
      && ("fs" !in q ==> r.value.fontSize == DefaultFontSize)
      && ("a" in q ==> conv.toFloat(q["a"]) == Some(r.value.textOpacity))
      && ("a" !in q ==> r.value.textOpacity == DefaultTextOpacity)
      && ("l" in q ==> conv.toFloat(q["l"]) == Some(r.value.commentDuration))
      && ("l" !in q ==> r.value.commentDuration == DefaultCommentDuration)
      && (r.value.reduceComments <==> "r" in q)
      && ("o" in q ==> r.value.outputFilename == q["o"])
      && ("o" !in q ==> r.value.outputFilename == DefaultOutputFilename)
  {
    var url :- Argument(q, "url");
    var width :- Number(q, "w", conv.toInt);
    if width <= 0 then None
    else
      var height :- Number(q, "h", conv.toInt);
      if !(0 < height <= MaxHeight) then None
      else
        var reserveBlank :- OptionalNumber(q, "p", conv.toInt, (p: int) => p >= 0, DefaultReserveBlank);
        var fontFace := OptionalText(q, "fn", DefaultFontFace);
        var fontSize :- OptionalNumber(q, "fs", conv.toFloat, (s: real) => s > 0.0, DefaultFontSize);
        var textOpacity :- OptionalNumber(q, "a", conv.toFloat, (a: real) => 0.0 <= a <= 1.0, DefaultTextOpacity);
        var commentDuration :- OptionalNumber(q, "l", conv.toFloat, (l: real) => true, DefaultCommentDuration);
        var reduceComments := "r" in q;
        var outputFilename := OptionalText(q, "o", DefaultOutputFilename);
        Some(Params(url, width, height, reserveBlank, fontFace, fontSize, textOpacity,
                    commentDuration, reduceComments, outputFilename))
  }

  /** With only `url`, `w` and `h` given and valid, every other option takes its default. */
  lemma DefaultsWhenAbsent(url: string, w: string, h: string, conv: Conversions)
    requires conv.toInt(w).Some? && conv.toInt(w).value > 0
    requires conv.toInt(h).Some? && 0 < conv.toInt(h).value <= MaxHeight
    ensures Parse(map["url" := url, "w" := w, "h" := h], conv)
         == Some(Params(url, conv.toInt(w).value, conv.toInt(h).value, DefaultReserveBlank, DefaultFontFace,
                        DefaultFontSize, DefaultTextOpacity, DefaultCommentDuration, false, DefaultOutputFilename))
  {
  }

  /** The `r` flag is set by its presence alone, whatever its value, and its value never causes a rejection. */
  lemma ReduceFlagIgnoresValue(q: Query, conv: Conversions, v1: string, v2: string)
    ensures Parse(q["r" := v1], conv) == Parse(q["r" := v2], conv)
    ensures Parse(q["r" := v1], conv).Some? ==> Parse(q["r" := v1], conv).value.reduceComments
  {
  }

  /** A single out-of-range optional argument rejects the request however good the rest is. */
  lemma OneBadOptionRejects(q: Query, conv: Conversions)
    requires ("fs" in q && conv.toFloat(q["fs"]).Some? && conv.toFloat(q["fs"]).value <= 0.0)
          || ("a" in q && conv.toFloat(q["a"]).Some? && !(0.0 <= conv.toFloat(q["a"]).value <= 1.0))
          || ("p" in q && conv.toInt(q["p"]).Some? && conv.toInt(q["p"]).value < 0)
    ensures Parse(q, conv) == None
  {
  }
}

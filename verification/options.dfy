/**
 * The configuration records of the parser and of the builder: mutable objects whose public
 * fields start at fixed defaults and are changed by fluent setters that return the same
 * instance. `Config()` gives the settings the algorithms read as a plain value.
 */
module Options {
  import opened Scalars

  /** The two `java.nio.charset.Charset` values the parser tells apart. */
  datatype Charset = Utf8 | Iso88591

  /** net/ContentType: whether a decoder or encoder works on a key or on a value. */
  datatype ContentType = KeyContent | ValueContent

  /** ArrayFormat: how the stringifier writes array keys. */
  datatype ArrayFormat = Brackets | Comma | Indices | Repeat

  /** A Java `int`. */
  type Int32 = i: int | IsInt32(i)

  /** net/Decoder: URL-decoding of a key or value, left abstract. */
  type Decoder = (string, Charset, ContentType) -> string

  /** net/Encoder: URL-encoding of a key or value, left abstract. */
  type Encoder = (string, Charset, ContentType) -> string

  // ---------------------------------------------------------------------------------------
  // ParserOptions

  /** The settings of a ParserOptions, without its decoder. */
  datatype ParserConfig = ParserConfig(
    allowDots: bool,
    allowSparse: bool,
    arrayLimit: Int32,
    charset: Charset,
    charsetSentinel: bool,
    comma: bool,
    delimiter: string,
    depth: Int32,
    ignoreQueryPrefix: bool,
    parameterLimit: Int32,
    parseArrays: bool,
    parseIntKeys: bool,
    plainObjects: bool,
    strictNullHandling: bool)

  /** The field initialisers of ParserOptions. */
  const DefaultParserConfig := ParserConfig(
    allowDots := false,
    allowSparse := false,
    arrayLimit := 20,
    charset := Utf8,
    charsetSentinel := false,
    comma := false,
    delimiter := "&",
    depth := 5,
    ignoreQueryPrefix := false,
    parameterLimit := 1000,
    parseArrays := true,
    parseIntKeys := true,
    plainObjects := false,
    strictNullHandling := false)

  class ParserOptions {
    var allowDots: bool
    var allowSparse: bool
    var arrayLimit: Int32
    var charset: Charset
    var charsetSentinel: bool
    var comma: bool
    var decoder: Decoder
    var delimiter: string
    var depth: Int32
    var ignoreQueryPrefix: bool
    var parameterLimit: Int32
    var parseArrays: bool
    var parseIntKeys: bool
    var plainObjects: bool
    var strictNullHandling: bool

    function Config(): ParserConfig
      reads this
    {
      ParserConfig(allowDots, allowSparse, arrayLimit, charset, charsetSentinel, comma, delimiter, depth,
                   ignoreQueryPrefix, parameterLimit, parseArrays, parseIntKeys, plainObjects, strictNullHandling)
    }

    /** `new ParserOptions()`; `defaultDecoder` stands for `new DefaultDecoder()`. */
    constructor (defaultDecoder: Decoder)
      ensures Config() == DefaultParserConfig && decoder == defaultDecoder
    {
      allowDots, allowSparse, arrayLimit, charset := false, false, 20, Utf8;
      charsetSentinel, comma, decoder, delimiter := false, false, defaultDecoder, "&";
      depth, ignoreQueryPrefix, parameterLimit := 5, false, 1000;
      parseArrays, parseIntKeys, plainObjects, strictNullHandling := true, true, false, false;
    }

    method StrictNullHandling(v: bool) returns (self: ParserOptions)
      modifies this
      ensures self == this && decoder == old(decoder)
      ensures Config() == old(Config()).(strictNullHandling := v)
    {
      strictNullHandling := v;
      self := this;
    }

    method AllowDots(v: bool) returns (self: ParserOptions)
      modifies this
      ensures self == this && decoder == old(decoder)
      ensures Config() == old(Config()).(allowDots := v)
    {
      allowDots := v;
      self := this;
    }

    method Depth(v: Int32) returns (self: ParserOptions)
      modifies this
      ensures self == this && decoder == old(decoder)
      ensures Config() == old(Config()).(depth := v)
    {
      depth := v;
      self := this;
    }

    /** Any `int` is accepted, a negative one included. */
    method ArrayLimit(v: Int32) returns (self: ParserOptions)
      modifies this
      ensures self == this && decoder == old(decoder)
      ensures Config() == old(Config()).(arrayLimit := v)
    {
      arrayLimit := v;
      self := this;
    }

    method AllowSparse(v: bool) returns (self: ParserOptions)
      modifies this
      ensures self == this && decoder == old(decoder)
      ensures Config() == old(Config()).(allowSparse := v)
    {
      allowSparse := v;
      self := this;
    }

    method Delimiter(v: string) returns (self: ParserOptions)
      modifies this
      ensures self == this && decoder == old(decoder)
      ensures Config() == old(Config()).(delimiter := v)
    {
      delimiter := v;
      self := this;
    }

    method ParameterLimit(v: Int32) returns (self: ParserOptions)
      modifies this
      ensures self == this && decoder == old(decoder)
      ensures Config() == old(Config()).(parameterLimit := v)
    {
      parameterLimit := v;
      self := this;
    }

    method SetCharset(v: Charset) returns (self: ParserOptions)
      modifies this
      ensures self == this && decoder == old(decoder)
      ensures Config() == old(Config()).(charset := v)
    {
      charset := v;
      self := this;
    }

    method CharsetSentinel(v: bool) returns (self: ParserOptions)
      modifies this
      ensures self == this && decoder == old(decoder)
      ensures Config() == old(Config()).(charsetSentinel := v)
    {
      charsetSentinel := v;
      self := this;
    }

    method SetComma(v: bool) returns (self: ParserOptions)
      modifies this
      ensures self == this && decoder == old(decoder)
      ensures Config() == old(Config()).(comma := v)
    {
      comma := v;
      self := this;
    }

    method SetDecoder(v: Decoder) returns (self: ParserOptions)
      modifies this
      ensures self == this && decoder == v
      ensures Config() == old(Config())
    {
      decoder := v;
      self := this;
    }

    method ParseArrays(v: bool) returns (self: ParserOptions)
      modifies this
      ensures self == this && decoder == old(decoder)
      ensures Config() == old(Config()).(parseArrays := v)
    {
      parseArrays := v;
      self := this;
    }

    method ParseIntKeys(v: bool) returns (self: ParserOptions)
      modifies this
      ensures self == this && decoder == old(decoder)
      ensures Config() == old(Config()).(parseIntKeys := v)
    {
      parseIntKeys := v;
      self := this;
    }
  }

  // ---------------------------------------------------------------------------------------
  // StringifyOptions

  /** The settings of a StringifyOptions, without its encoder. */
  datatype StringifyConfig = StringifyConfig(
    addQueryPrefix: bool,
    arrayFormat: ArrayFormat,
    allowDots: bool,
    charset: Charset,
    commaRoundTrip: bool,
    delimiter: string,
    dictInArrayReplacement: string,
    encode: bool,
    encodeValuesOnly: bool,
    indices: bool,
    skipNulls: bool,
    strictNullHandling: bool)

  /** The field initialisers of StringifyOptions. */
  const DefaultStringifyConfig := StringifyConfig(
    addQueryPrefix := false,
    arrayFormat := Indices,
    allowDots := false,
    charset := Utf8,
    commaRoundTrip := false,
    delimiter := "&",
    dictInArrayReplacement := "DictValue",
    encode := true,
    encodeValuesOnly := false,
    indices := true,
    skipNulls := false,
    strictNullHandling := false)

  class StringifyOptions {
    var addQueryPrefix: bool
    var arrayFormat: ArrayFormat
    var allowDots: bool
    var charset: Charset
    var commaRoundTrip: bool
    var delimiter: string
    var dictInArrayReplacement: string
    var encode: bool
    var encoder: Encoder
    var encodeValuesOnly: bool
    var indices: bool
    var skipNulls: bool
    var strictNullHandling: bool

    function Config(): StringifyConfig
      reads this
    {
      StringifyConfig(addQueryPrefix, arrayFormat, allowDots, charset, commaRoundTrip, delimiter,
                      dictInArrayReplacement, encode, encodeValuesOnly, indices, skipNulls, strictNullHandling)
    }

    /** `new StringifyOptions()`; `defaultEncoder` stands for `DefaultEncoder.INSTANCE`. */
    constructor (defaultEncoder: Encoder)
      ensures Config() == DefaultStringifyConfig && encoder == defaultEncoder
    {
      addQueryPrefix, arrayFormat, allowDots, charset := false, Indices, false, Utf8;
      commaRoundTrip, delimiter, dictInArrayReplacement := false, "&", "DictValue";
      encode, encoder, encodeValuesOnly := true, defaultEncoder, false;
      indices, skipNulls, strictNullHandling := true, false, false;
    }

    method SetEncoder(v: Encoder) returns (self: StringifyOptions)
      modifies this
      ensures self == this && encoder == v
      ensures Config() == old(Config())
    {
      encoder := v;
      self := this;
    }

    method SetEncodeValuesOnly(v: bool) returns (self: StringifyOptions)
      modifies this
      ensures self == this && encoder == old(encoder)
      ensures Config() == old(Config()).(encodeValuesOnly := v)
    {
      encodeValuesOnly := v;
      self := this;
    }

    method SetArrayFormat(v: ArrayFormat) returns (self: StringifyOptions)
      modifies this
      ensures self == this && encoder == old(encoder)
      ensures Config() == old(Config()).(arrayFormat := v)
    {
      arrayFormat := v;
      self := this;
    }

    method SetAddQueryPrefix(v: bool) returns (self: StringifyOptions)
      modifies this
      ensures self == this && encoder == old(encoder)
      ensures Config() == old(Config()).(addQueryPrefix := v)
    {
      addQueryPrefix := v;
      self := this;
    }

    method SetStrictNullHandling(v: bool) returns (self: StringifyOptions)
      modifies this
      ensures self == this && encoder == old(encoder)
      ensures Config() == old(Config()).(strictNullHandling := v)
    {
      strictNullHandling := v;
      self := this;
    }

    method SetAllowDots(v: bool) returns (self: StringifyOptions)
      modifies this
      ensures self == this && encoder == old(encoder)
      ensures Config() == old(Config()).(allowDots := v)
    {
      allowDots := v;
      self := this;
    }

    method SetSkipsNulls(v: bool) returns (self: StringifyOptions)
      modifies this
      ensures self == this && encoder == old(encoder)
      ensures Config() == old(Config()).(skipNulls := v)
    {
      skipNulls := v;
      self := this;
    }

    method SetIndices(v: bool) returns (self: StringifyOptions)
      modifies this
      ensures self == this && encoder == old(encoder)
      ensures Config() == old(Config()).(indices := v)
    {
      indices := v;
      self := this;
    }

    method SetCommaRoundTrip(v: bool) returns (self: StringifyOptions)
      modifies this
      ensures self == this && encoder == old(encoder)
      ensures Config() == old(Config()).(commaRoundTrip := v)
    {
      commaRoundTrip := v;
      self := this;
    }

    method SetEncode(v: bool) returns (self: StringifyOptions)
      modifies this
      ensures self == this && encoder == old(encoder)
      ensures Config() == old(Config()).(encode := v)
    {
      encode := v;
      self := this;
    }
  }
}

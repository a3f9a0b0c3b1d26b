/** The mutable controller result: a response under construction, with content type, headers,
    status code and data, filled in by chainable setters. */
module ControllerResults {
  import opened Wrappers

  /** The names of a header list, in order. */
  function Names<H>(headers: seq<(string, H)>): (names: seq<string>)
    ensures |names| == |headers|
    ensures forall i :: 0 <= i < |headers| ==> names[i] == headers[i].0
  {
    if headers == [] then [] else [headers[0].0] + Names(headers[1..])
  }

  /** A header list as a PHP array holds it: each name at most once. */
  predicate UniqueNames<H>(headers: seq<(string, H)>) {
    forall i, j :: 0 <= i < j < |headers| ==> headers[i].0 != headers[j].0
  }

  /** `$headers[$name]`, or NULL (None) when the name is not set. */
  function HeaderValue<H>(headers: seq<(string, H)>, name: string): (value: Option<H>)
    ensures value.None? <==> name !in Names(headers)
  {
    if headers == [] then None
    else if headers[0].0 == name then Some(headers[0].1)
    else
      HeaderValue(headers[1..], name)
  }

  /** `$headers[$name] = $value`: overwrites the value in place when the name is set,
      appends the pair otherwise. */
  function WithHeader<H>(headers: seq<(string, H)>, name: string, value: H): (updated: seq<(string, H)>)
    ensures |updated| == if HeaderValue(headers, name).Some? then |headers| else |headers| + 1
  {
    if headers == [] then [(name, value)]
    else if headers[0].0 == name then [(name, value)] + headers[1..]
    else [headers[0]] + WithHeader(headers[1..], name, value)
  }

  /** After setting a header its value is the new one, and every other header reads as before. */
  lemma {:induction false} WithHeaderValue<H>(headers: seq<(string, H)>, name: string, value: H, other: string)
    ensures HeaderValue(WithHeader(headers, name, value), other)
         == if other == name then Some(value) else HeaderValue(headers, other)
  {
    if headers != [] && headers[0].0 != name {
      WithHeaderValue(headers[1..], name, value, other);
      assert WithHeader(headers, name, value)[1..] == WithHeader(headers[1..], name, value);
    }
  }

  /** Setting a header keeps the order of the names: an existing name stays where it is,
      a new one goes to the end. */
  lemma {:induction false} WithHeaderNames<H>(headers: seq<(string, H)>, name: string, value: H)
    ensures Names(WithHeader(headers, name, value))
         == if name in Names(headers) then Names(headers) else Names(headers) + [name]
  {
    if headers != [] && headers[0].0 != name {
      var rest := headers[1..];
      var updated := WithHeader(rest, name, value);
      WithHeaderNames(rest, name, value);
      assert WithHeader(headers, name, value) == [headers[0]] + updated;
      assert ([headers[0]] + updated)[1..] == updated;
      assert Names(WithHeader(headers, name, value)) == [headers[0].0] + Names(updated);
      assert Names(headers) == [headers[0].0] + Names(rest);
      if name in Names(rest) {
        assert name in Names(headers);
      } else {
        assert name !in Names(headers);
        assert Names(headers) + [name] == [headers[0].0] + (Names(rest) + [name]);
      }
    }
  }

  /** Setting a header keeps the names unique. */
  lemma WithHeaderUnique<H>(headers: seq<(string, H)>, name: string, value: H)
    requires UniqueNames(headers)
    ensures UniqueNames(WithHeader(headers, name, value))
  {
    WithHeaderNames(headers, name, value);
    var after := WithHeader(headers, name, value);
    forall i, j | 0 <= i < j < |after|
      ensures after[i].0 != after[j].0
    {
      assert Names(after)[i] == after[i].0 && Names(after)[j] == after[j].0;
    }
  }

  /** Setting the same header twice: the second value wins, as if only it had been set. */
  lemma {:induction false} WithHeaderTwice<H>(headers: seq<(string, H)>, name: string, first: H, second: H)
    ensures WithHeader(WithHeader(headers, name, first), name, second) == WithHeader(headers, name, second)
  {
    if headers != [] && headers[0].0 != name {
      WithHeaderTwice(headers[1..], name, first, second);
    }
  }

  /** The result object. Its headers are an ordered list of names with values. */
  class MutableControllerResult<Data, H> {
    var contentType: string
    var headers: seq<(string, H)>
    var statusCode: int
    var data: Data

    ghost predicate Valid()
      reads this
    {
      UniqueNames(headers)
    }

    /** The defaults of the base class are not part of this model: the initial values are
        passed in. */
    constructor(statusCode: int, data: Data, contentType: string, headers: seq<(string, H)>)
      requires UniqueNames(headers)
      ensures Valid()
      ensures this.statusCode == statusCode && this.data == data
      ensures this.contentType == contentType && this.headers == headers
    {
      this.statusCode := statusCode;
      this.data := data;
      this.contentType := contentType;
      this.headers := headers;
    }

    /** setContentType: replaces the content type and nothing else; returns this object. */
    method SetContentType(contentType: string) returns (self: MutableControllerResult<Data, H>)
      modifies this
      ensures self == this
      ensures this.contentType == contentType
      ensures headers == old(headers) && statusCode == old(statusCode) && data == old(data)
    {
      this.contentType := contentType;
      return this;
    }

    /** setHeaders: replaces the whole header list and nothing else; returns this object. */
    method SetHeaders(headers: seq<(string, H)>) returns (self: MutableControllerResult<Data, H>)
      requires UniqueNames(headers)
      modifies this
      ensures self == this && Valid()
      ensures this.headers == headers
      ensures contentType == old(contentType) && statusCode == old(statusCode) && data == old(data)
    {
      this.headers := headers;
      return this;
    }

    /** addHeader: sets the header `name` to `header`, overwriting an earlier value in its place
        and leaving every other header as it was; returns this object. */
    method AddHeader(name: string, header: H) returns (self: MutableControllerResult<Data, H>)
      requires Valid()
      modifies this
      ensures self == this && Valid()
      ensures headers == WithHeader(old(headers), name, header)
      ensures HeaderValue(headers, name) == Some(header)
      ensures forall other | other != name :: HeaderValue(headers, other) == HeaderValue(old(headers), other)
      ensures Names(headers) == if name in Names(old(headers)) then Names(old(headers)) else Names(old(headers)) + [name]
      ensures contentType == old(contentType) && statusCode == old(statusCode) && data == old(data)
    {
      WithHeaderUnique(headers, name, header);
      WithHeaderNames(headers, name, header);
      WithHeaderValue(headers, name, header, name);
      forall other | other != name
        ensures HeaderValue(WithHeader(headers, name, header), other) == HeaderValue(headers, other)
      {
        WithHeaderValue(headers, name, header, other);
      }
      headers := WithHeader(headers, name, header);
      return this;
    }

    /** setStatusCode: replaces the status code and nothing else; returns this object. */
    method SetStatusCode(statusCode: int) returns (self: MutableControllerResult<Data, H>)
      modifies this
      ensures self == this
      ensures this.statusCode == statusCode
      ensures contentType == old(contentType) && headers == old(headers) && data == old(data)
    {
      this.statusCode := statusCode;
      return this;
    }

    /** setData: replaces the data and nothing else; returns this object. */
    method SetData(data: Data) returns (self: MutableControllerResult<Data, H>)
      modifies this
      ensures self == this
      ensures this.data == data
      ensures contentType == old(contentType) && headers == old(headers) && statusCode == old(statusCode)
    {
      this.data := data;
      return this;
    }
  }

  /** Because every setter returns its receiver, a chain of setters acts on one object: setting
      the status, a header twice, the content type and the data leaves exactly those values. */
  method FillResult<Data, H>(result: MutableControllerResult<Data, H>, statusCode: int, name: string,
                             first: H, second: H, contentType: string, data: Data)
    returns (self: MutableControllerResult<Data, H>)
    requires result.Valid()
    modifies result
    ensures self == result && self.Valid()
    ensures self.statusCode == statusCode && self.contentType == contentType && self.data == data
    ensures self.headers == WithHeader(old(result.headers), name, second)
    ensures HeaderValue(self.headers, name) == Some(second)
  {
    self := result.SetStatusCode(statusCode);
    self := self.AddHeader(name, first);
    self := self.AddHeader(name, second);
    WithHeaderTwice(old(result.headers), name, first, second);
    self := self.SetContentType(contentType);
    self := self.SetData(data);
  }
}

/** Request assembly around the hosted chat-completion service. The service
    itself is a parameter `chat`: a function from a request to either a
    reply or the message of the exception the client raised. */
module Llm {
  import opened Wrappers
  import opened Text

  /** One part of a multimodal user message. */
  datatype Part = TextPart(text: string) | ImagePart(url: string, detail: string)

  /** The content of a chat message: a plain string or a list of parts. */
  datatype Content = Plain(text: string) | Parts(parts: seq<Part>)

  datatype Message = Message(role: string, content: Content)

  datatype Request = Request(model: string, messages: seq<Message>, temperature: int, maxTokens: Option<nat>)

  /** What a chat-completion call gives back: the first choice's message
      content, or the text of the exception raised. */
  datatype Completion = Reply(content: string) | Failure(message: string)

  /** An entry of the multimodal input list: `{"type": "image", "data": …}`,
      `{"type": "text", "data": …}`, or any other type, which is skipped. */
  datatype Item = ImageItem(data: string) | TextItem(data: string) | OtherItem(kind: string)

  const ImageUrlPrefix := "data:image/png;base64,"
  const MultimodalErrorPrefix := "멀티모달 처리 오류: "

  /** `api_key or os.getenv("OPENAI_API_KEY")`: an empty key counts as
      missing. */
  function EffectiveKey(apiKey: Option<string>, env: Option<string>): Option<string> {
    if apiKey.Some? && apiKey.value != [] then apiKey else env
  }

  /** The request `get_response` sends for one input item. */
  function ItemRequest(prompt: string, item: string): Request {
    Request("gpt-4o-mini", [Message("system", Plain(prompt)), Message("user", Plain(item))], 0, None)
  }

  /** What `get_response` records for one item: the stripped reply, or the
      error text. */
  function ItemResult(c: Completion): string {
    match c
    case Reply(content) => Strip(content)
    case Failure(message) => "Error: " + message
  }

  /** The image entry of an image item: a PNG data URL with low detail. */
  function ImageEntry(data: string): Part {
    ImagePart(ImageUrlPrefix + data, "low")
  }

  /** One step of the assembly loop: images are appended, a text right
      after a text block is added to that block after a line feed,
      any other text opens a new block, other items are skipped. */
  function Step(acc: seq<Part>, item: Item): seq<Part> {
    match item
    case ImageItem(data) => acc + [ImageEntry(data)]
    case TextItem(data) =>
      if acc != [] && acc[|acc| - 1].TextPart? then
        acc[..|acc| - 1] + [TextPart(acc[|acc| - 1].text + "\n" + data)]
      else acc + [TextPart(data)]
    case OtherItem(_) => acc
  }

  /** The content the loop of `get_multimodal_response` builds. */
  function Assemble(items: seq<Item>): seq<Part> {
    if items == [] then [] else Step(Assemble(items[..|items| - 1]), items[|items| - 1])
  }

  /** The same content described block by block from the front: an image
      item is one image part, and a maximal run of text items (other items
      inside a run do not break it) is one text part holding the texts
      joined by line feeds. */
  function Blocks(items: seq<Item>): seq<Part> {
    if items == [] then []
    else
      var rest := Blocks(items[1..]);
      match items[0]
      case ImageItem(data) => [ImageEntry(data)] + rest
      case OtherItem(_) => rest
      case TextItem(data) =>
        if rest != [] && rest[0].TextPart? then [TextPart(data + "\n" + rest[0].text)] + rest[1..]
        else [TextPart(data)] + rest
  }

  /** Two text parts never stand next to each other. */
  predicate NoAdjacentText(parts: seq<Part>) {
    forall i :: 0 <= i < |parts| - 1 ==> !(parts[i].TextPart? && parts[i + 1].TextPart?)
  }

  /** The image parts' URLs, in order. */
  function ImageUrls(parts: seq<Part>): seq<string> {
    if parts == [] then []
    else
      var last := parts[|parts| - 1];
      ImageUrls(parts[..|parts| - 1]) + (if last.ImagePart? then [last.url] else [])
  }

  /** The data URLs of the image items, in order. */
  function ItemImageUrls(items: seq<Item>): seq<string> {
    if items == [] then []
    else
      var last := items[|items| - 1];
      ItemImageUrls(items[..|items| - 1]) + (if last.ImageItem? then [ImageUrlPrefix + last.data] else [])
  }

  /** Adding one item at the back of the input list changes the
      block-by-block content as one loop step does. */
  lemma {:induction false} BlocksSnoc(items: seq<Item>, x: Item)
    ensures Blocks(items + [x]) == Step(Blocks(items), x)
  {
    if items == [] {
      assert Blocks([x]) == Step([], x) by {
        assert [x][1..] == [];
      }
      assert items + [x] == [x];
    } else {
      var y, ys := items[0], items[1..];
      assert (items + [x])[0] == y;
      assert (items + [x])[1..] == ys + [x];
      BlocksSnoc(ys, x);
      var b := Blocks(ys);
      var b' := Step(b, x);
      assert Blocks(ys + [x]) == b';
      match y
      case ImageItem(d) =>
        StepAfterFront([ImageEntry(d)], b, x);
      case OtherItem(_) =>
      case TextItem(t) =>
        FrontMergeStep(t, b, x);
    }
  }

  /** A loop step on content with a fixed non-text front. */
  lemma StepAfterFront(front: seq<Part>, b: seq<Part>, x: Item)
    requires front != [] && !front[|front| - 1].TextPart?
    ensures front + Step(b, x) == Step(front + b, x)
  {
    var acc := front + b;
    match x
    case ImageItem(d) =>
    case OtherItem(_) =>
    case TextItem(data) =>
      if b != [] && b[|b| - 1].TextPart? {
        assert acc[|acc| - 1] == b[|b| - 1];
        assert acc[..|acc| - 1] == front + b[..|b| - 1];
      } else {
        assert !acc[|acc| - 1].TextPart?;
      }
  }

  /** Merging a text in front of content and taking one loop step commute. */
  function FrontText(t: string, b: seq<Part>): seq<Part> {
    if b != [] && b[0].TextPart? then [TextPart(t + "\n" + b[0].text)] + b[1..] else [TextPart(t)] + b
  }

  lemma FrontMergeStep(t: string, b: seq<Part>, x: Item)
    ensures FrontText(t, Step(b, x)) == Step(FrontText(t, b), x)
  {
    match x
    case ImageItem(d) =>
      FrontMergeAppend(t, b, ImageEntry(d));
    case OtherItem(_) =>
    case TextItem(data) =>
      if b == [] {
        assert Step([TextPart(t)], x) == [TextPart(t + "\n" + data)];
      } else if b[|b| - 1].TextPart? {
        FrontMergeText(t, b, data);
      } else {
        FrontMergeAppend(t, b, TextPart(data));
      }
  }

  /** Appending a part behind non-empty content leaves its front alone. */
  lemma FrontMergeAppend(t: string, b: seq<Part>, p: Part)
    ensures FrontText(t, b + [p]) == FrontText(t, b) + [p] || b == []
  {
    if b != [] {
      assert (b + [p])[0] == b[0];
      assert (b + [p])[1..] == b[1..] + [p];
    }
  }

  /** Extending the last text block commutes with merging into the first. */
  lemma FrontMergeText(t: string, b: seq<Part>, data: string)
    requires b != [] && b[|b| - 1].TextPart?
    ensures FrontText(t, Step(b, TextItem(data))) == Step(FrontText(t, b), TextItem(data))
  {
    var f := FrontText(t, b);
    var last := TextPart(b[|b| - 1].text + "\n" + data);
    var s := b[..|b| - 1] + [last];
    assert Step(b, TextItem(data)) == s;
    if |b| == 1 {
      assert s == [last];
      assert f == [TextPart(t + "\n" + b[0].text)];
      assert t + "\n" + (b[0].text + "\n" + data) == (t + "\n" + b[0].text) + "\n" + data;
    } else {
      assert s[0] == b[0];
      assert s[1..] == b[1..|b| - 1] + [last];
      assert f[|f| - 1] == b[|b| - 1];
      if b[0].TextPart? {
        var head, tail := TextPart(t + "\n" + b[0].text), b[1..];
        assert f == [head] + tail;
        assert tail[..|tail| - 1] == b[1..|b| - 1];
        assert f[..|f| - 1] == [head] + tail[..|tail| - 1];
      } else {
        assert f == [TextPart(t)] + b;
        assert f[..|f| - 1] == [TextPart(t)] + b[..|b| - 1];
      }
    }
  }

  /** The loop's content and the block-by-block description agree on every
      input list. */
  lemma {:induction false} AssembleIsBlocks(items: seq<Item>)
    ensures Assemble(items) == Blocks(items)
  {
    if items != [] {
      var init, x := items[..|items| - 1], items[|items| - 1];
      AssembleIsBlocks(init);
      BlocksSnoc(init, x);
      assert init + [x] == items;
    }
  }

  /** The assembled content never holds two adjacent text blocks. */
  lemma {:induction false} AssembleNoAdjacentText(items: seq<Item>)
    ensures NoAdjacentText(Assemble(items))
  {
    if items != [] {
      var init := items[..|items| - 1];
      AssembleNoAdjacentText(init);
      var acc := Assemble(init);
      var r := Assemble(items);
      match items[|items| - 1]
      case ImageItem(d) =>
        assert forall i :: 0 <= i < |acc| ==> r[i] == acc[i];
      case OtherItem(_) =>
      case TextItem(data) =>
        if acc != [] && acc[|acc| - 1].TextPart? {
          assert forall i :: 0 <= i < |acc| - 1 ==> r[i] == acc[i];
        } else {
          assert forall i :: 0 <= i < |acc| ==> r[i] == acc[i];
        }
    }
  }

  /** Every image item reaches the request as a PNG data URL, in input
      order, and nothing else becomes an image. */
  lemma {:induction false} AssembleKeepsImages(items: seq<Item>)
    ensures ImageUrls(Assemble(items)) == ItemImageUrls(items)
  {
    if items != [] {
      var init, x := items[..|items| - 1], items[|items| - 1];
      AssembleKeepsImages(init);
      var acc := Assemble(init);
      match x
      case ImageItem(d) =>
        assert (acc + [ImageEntry(d)])[..|acc|] == acc;
      case OtherItem(_) =>
      case TextItem(data) =>
        if acc != [] && acc[|acc| - 1].TextPart? {
          var front := acc[..|acc| - 1];
          var merged := front + [TextPart(acc[|acc| - 1].text + "\n" + data)];
          assert merged[..|front|] == front;
          assert ImageUrls(merged) == ImageUrls(front);
          assert ImageUrls(acc) == ImageUrls(front);
        } else {
          assert (acc + [TextPart(data)])[..|acc|] == acc;
        }
    }
  }

  /** The request `get_multimodal_response` sends: the system prompt, then
      one user message holding the assembled content. */
  function MultimodalRequest(prompt: string, content: seq<Part>): Request {
    Request("gpt-4o", [Message("system", Plain(prompt)), Message("user", Parts(content))], 0, Some(1000))
  }

  /** The single entry `get_multimodal_response` returns: the stripped
      reply, or the error text. */
  function MultimodalResult(c: Completion): string {
    match c
    case Reply(content) => Strip(content)
    case Failure(message) => MultimodalErrorPrefix + message
  }

  /** The chat client: holds the API key it was created with. */
  class LLM {
    const apiKey: Option<string>

    /** An explicit, non-empty `apiKey` wins over the environment's
        `OPENAI_API_KEY`. */
    constructor (apiKey: Option<string>, env: Option<string>)
      ensures apiKey.Some? && apiKey.value != [] ==> this.apiKey == apiKey
      ensures !(apiKey.Some? && apiKey.value != []) ==> this.apiKey == env
    {
      this.apiKey := EffectiveKey(apiKey, env);
    }

    /** `get_response(prompt, data_list)`: one request per item, in order;
        a failing request yields an error string in its own slot only. */
    method GetResponse(prompt: string, dataList: seq<string>, chat: Request -> Completion)
      returns (results: seq<string>)
      ensures |results| == |dataList|
      ensures forall i :: 0 <= i < |dataList| ==> results[i] == ItemResult(chat(ItemRequest(prompt, dataList[i])))
    {
      results := [];
      for i := 0 to |dataList|
        invariant |results| == i
        invariant forall j :: 0 <= j < i ==> results[j] == ItemResult(chat(ItemRequest(prompt, dataList[j])))
      {
        var response := chat(ItemRequest(prompt, dataList[i]));
        var entry := Record(response);
        results := results + [entry];
      }
    }

    /** The entry `get_response` appends for one completion. */
    static method Record(response: Completion) returns (entry: string)
      ensures entry == ItemResult(response)
    {
      match response {
        case Reply(content) => entry := Strip(content);
        case Failure(message) => entry := "Error: " + message;
      }
    }

    /** `get_multimodal_response(prompt, items)`: assembles the content,
        sends one request and returns a one-element list with the stripped
        reply or the error text. */
    method GetMultimodalResponse(prompt: string, items: seq<Item>, chat: Request -> Completion)
      returns (results: seq<string>)
      ensures results == [MultimodalResult(chat(MultimodalRequest(prompt, Blocks(items))))]
    {
      var userContent: seq<Part> := [];
      for i := 0 to |items|
        invariant userContent == Assemble(items[..i])
      {
        assert items[..i + 1][..i] == items[..i];
        match items[i] {
          case ImageItem(data) =>
            userContent := userContent + [ImagePart(ImageUrlPrefix + data, "low")];
          case TextItem(data) =>
            if userContent != [] && userContent[|userContent| - 1].TextPart? {
              var last := userContent[|userContent| - 1];
              userContent := userContent[..|userContent| - 1] + [TextPart(last.text + "\n" + data)];
            } else {
              userContent := userContent + [TextPart(data)];
            }
          case OtherItem(_) =>
        }
      }
      assert items[..|items|] == items;
      AssembleIsBlocks(items);
      var messages := [Message("system", Plain(prompt)), Message("user", Parts(userContent))];
      var response := chat(Request("gpt-4o", messages, 0, Some(1000)));
      match response {
        case Reply(content) => results := [Strip(content)];
        case Failure(message) => results := [MultimodalErrorPrefix + message];
      }
    }
  }
}

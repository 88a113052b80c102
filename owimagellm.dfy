/** The image-and-text LLM widget: keeps the latest image and table,
    enables its run button while either is present, turns them into the
    multimodal item list and sends that, with the prompt, to the chat
    service. The PNG/base64 encoding of an image and the construction of
    the chat client are parameters: `encode` gives the encoded image or the
    text of the exception raised, `clientError` the text of the exception
    the client constructor raises for a key, if it raises. */
module ImageLlmWidget {
  import opened Wrappers
  import opened Text
  import opened OrangeTable
  import opened Llm

  /** An image array; only the encoder looks inside it. */
  type Image = seq<int>

  /** What the widget receives on its image input. */
  datatype ImageInput = NoImage | NotAnArray(typeName: string) | ArrayValue(image: Image)

  /** A table sent on the output: one string meta column and one row per
      entry. */
  datatype Output = Output(column: string, rows: seq<string>)

  const DefaultPrompt := "Please analyze this image and text."
  const ImageErrorPrefix := "Image processing error: "
  const NoTextData := "No text data"
  const ProcessingErrorPrefix := "Error during processing: "
  const ResponseColumn := "LLM Response"
  const ErrorColumn := "Error"

  /** `(field or "").strip() or None`: a blank or whitespace-only key field
      means no key. */
  function BlankToNone(field: string): Option<string> {
    var key := Strip(field);
    if key == [] then None else Some(key)
  }

  /** The client gets the environment's key exactly when the field holds
      only whitespace, and otherwise the field without its surrounding
      whitespace, which stripping again leaves as it is. */
  lemma BlankKey(field: string, env: Option<string>)
    ensures BlankToNone(field).None? <==> forall k :: 0 <= k < |field| ==> IsPySpace(field[k])
    ensures BlankToNone(field).None? ==> EffectiveKey(BlankToNone(field), env) == env
    ensures BlankToNone(field).Some? ==>
      var key := BlankToNone(field).value;
      && EffectiveKey(BlankToNone(field), env) == Some(key)
      && key != [] && Strip(key) == key
  {
    StripIdempotent(field);
  }

  /** In a well-formed table every string meta position is a meta cell of
      row `i`. */
  lemma MetasInRange(t: Table, i: nat)
    requires WellFormed(t) && i < |t.rows|
    ensures forall j :: 0 <= j < |StringPositions(t.metas)| ==> StringPositions(t.metas)[j] < |t.rows[i].metas|
  {
    assert t.rows[i] in t.rows;
  }

  /** One row's string meta cells joined by single spaces; no value is
      filtered out. */
  function MetaLine(r: Row, positions: seq<nat>): string
    requires forall j :: 0 <= j < |positions| ==> positions[j] < |r.metas|
  {
    Join(" ", seq(|positions|, j requires 0 <= j < |positions| => r.metas[positions[j]]))
  }

  /** The data of the text item: one line per row, or "No text data" when
      the table has no string metas. */
  function TableText(t: Table): string
    requires WellFormed(t)
  {
    var positions := StringPositions(t.metas);
    if positions == [] then NoTextData
    else
      Join("\n", seq(|t.rows|, i requires 0 <= i < |t.rows| =>
        MetasInRange(t, i); MetaLine(t.rows[i], positions)))
  }

  /** The image's item: the encoded image, or a text item with the
      encoding error; nothing without an image. */
  function ImageSlot(image: Option<Image>, hasImage: bool, encode: Image -> Result<string, string>): seq<Item> {
    if hasImage && image.Some? then
      match encode(image.value)
      case Ok(data) => [ImageItem(data)]
      case Err(e) => [TextItem(ImageErrorPrefix + e)]
    else []
  }

  /** The table's item; nothing without a table. */
  function TextSlot(text: Option<Table>, hasText: bool): seq<Item>
    requires text.Some? ==> WellFormed(text.value)
  {
    if hasText && text.Some? then [TextItem(TableText(text.value))] else []
  }

  /** The list `prepare_multimodal_data` builds. */
  function Prepared(image: Option<Image>, hasImage: bool, text: Option<Table>, hasText: bool,
                    encode: Image -> Result<string, string>): seq<Item>
    requires text.Some? ==> WellFormed(text.value)
  {
    ImageSlot(image, hasImage, encode) + TextSlot(text, hasText)
  }

  /** At most one image-or-error item, then at most one text item for the
      table: an image item can only come first, the table's item can only
      come last, and no item is of another type. */
  lemma PreparedShape(image: Option<Image>, hasImage: bool, text: Option<Table>, hasText: bool,
                      encode: Image -> Result<string, string>)
    requires text.Some? ==> WellFormed(text.value)
    ensures var items := Prepared(image, hasImage, text, hasText, encode);
      && |items| == (if hasImage && image.Some? then 1 else 0) + (if hasText && text.Some? then 1 else 0)
      && (forall i :: 0 <= i < |items| && items[i].ImageItem? ==> i == 0)
      && (forall i :: 0 <= i < |items| ==> !items[i].OtherItem?)
      && (hasText && text.Some? ==> items[|items| - 1] == TextItem(TableText(text.value)))
  {
  }

  /** The user content the prepared list becomes: an encoded image is one
      low-detail image part followed by the table's text part, while an
      image that failed to encode shares one text part with the table's
      text, the error first and a line feed between them. */
  lemma PreparedContent(image: Option<Image>, hasImage: bool, text: Option<Table>, hasText: bool,
                        encode: Image -> Result<string, string>)
    requires text.Some? ==> WellFormed(text.value)
    ensures var content := Blocks(Prepared(image, hasImage, text, hasText, encode));
      var tableParts := if hasText && text.Some? then [TextPart(TableText(text.value))] else [];
      && (!(hasImage && image.Some?) ==> content == tableParts)
      && (hasImage && image.Some? && encode(image.value).Ok? ==>
            content == [ImagePart(ImageUrlPrefix + encode(image.value).value, "low")] + tableParts)
      && (hasImage && image.Some? && encode(image.value).Err? ==>
            content == [TextPart(ImageErrorPrefix + encode(image.value).error
                                 + if hasText && text.Some? then "\n" + TableText(text.value) else "")])
  {
    var items := Prepared(image, hasImage, text, hasText, encode);
    var slot := TextSlot(text, hasText);
    if slot != [] {
      assert Blocks(slot) == [TextPart(slot[0].data)] by {
        assert slot[1..] == [];
      }
    }
    if |items| == 2 {
      assert items[1..] == slot;
      if items[0].TextItem? {
        var err := items[0].data;
        assert err + "\n" + slot[0].data == err + ("\n" + slot[0].data);
      }
    } else if |items| == 1 && items[0].TextItem? {
      assert items[0].data + "" == items[0].data;
    }
  }

  /** What one run of `process` shows and sends: the one-entry response
      table, or an "Error" table when the client could not be created for
      the key taken from the key field. */
  function Outcome(prompt: string, keyField: string, env: Option<string>, items: seq<Item>,
                   clientError: Option<string> -> Option<string>, chat: Request -> Completion): Output {
    match clientError(EffectiveKey(BlankToNone(keyField), env))
    case Some(e) => Output(ErrorColumn, [ProcessingErrorPrefix + e])
    case None => Output(ResponseColumn, [MultimodalResult(chat(MultimodalRequest(prompt, Blocks(items))))])
  }

  /** A run sends exactly one row, and the display shows that row; the
      column is "Error" exactly when the client could not be created. */
  lemma OutcomeOneRow(prompt: string, keyField: string, env: Option<string>, items: seq<Item>,
                      clientError: Option<string> -> Option<string>, chat: Request -> Completion)
    ensures var out := Outcome(prompt, keyField, env, items, clientError, chat);
      && |out.rows| == 1
      && Join("\n", out.rows) == out.rows[0]
      && (out.column == ErrorColumn <==> clientError(EffectiveKey(BlankToNone(keyField), env)).Some?)
  {
  }

  class Widget {
    var imageData: Option<Image>
    var hasImage: bool
    var textData: Option<Table>
    var hasText: bool
    /** Whether the run button is enabled. */
    var buttonEnabled: bool
    /** The persisted `api_key` setting and the key field's text. */
    var apiKeySetting: string
    var apiKeyField: string
    /** The prompt editor's text and the prompt last used. */
    var promptField: string
    var prompt: string
    /** The result display's text and the tables sent on the output. */
    var display: string
    var outputs: seq<Output>

    /** A kept table is well formed. */
    predicate Valid()
      reads this`textData
    {
      textData.Some? ==> WellFormed(textData.value)
    }

    /** What a run sends for the current inputs, prompt text and key
        field. */
    function RunOutcome(env: Option<string>, clientError: Option<string> -> Option<string>,
                        chat: Request -> Completion, encode: Image -> Result<string, string>): Output
      reads this`imageData, this`hasImage, this`textData, this`hasText, this`promptField, this`apiKeyField
      requires Valid()
    {
      Outcome(promptField, apiKeyField, env, Prepared(imageData, hasImage, textData, hasText, encode), clientError, chat)
    }

    /** The widget as `__init__` leaves it; the key field starts from the
        saved setting. */
    constructor (savedKey: string)
      ensures Valid()
      ensures imageData == None && !hasImage && textData == None && !hasText && !buttonEnabled
      ensures apiKeySetting == savedKey && apiKeyField == savedKey
      ensures prompt == DefaultPrompt && promptField == DefaultPrompt
      ensures display == [] && outputs == []
    {
      imageData := None;
      hasImage := false;
      textData := None;
      hasText := false;
      buttonEnabled := false;
      apiKeySetting := savedKey;
      apiKeyField := savedKey;
      prompt := DefaultPrompt;
      promptField := DefaultPrompt;
      display := [];
      outputs := [];
    }

    /** `check_inputs()`: the button is enabled exactly when an image or a
        table is present. */
    method CheckInputs()
      modifies this
      ensures buttonEnabled == (hasImage || hasText)
      ensures imageData == old(imageData) && hasImage == old(hasImage)
      ensures textData == old(textData) && hasText == old(hasText)
      ensures apiKeySetting == old(apiKeySetting) && apiKeyField == old(apiKeyField)
      ensures prompt == old(prompt) && promptField == old(promptField)
      ensures display == old(display) && outputs == old(outputs)
    {
      buttonEnabled := hasImage || hasText;
    }

    /** `prepare_multimodal_data()`. */
    method PrepareMultimodalData(encode: Image -> Result<string, string>) returns (items: seq<Item>)
      requires Valid()
      ensures items == Prepared(imageData, hasImage, textData, hasText, encode)
    {
      items := [];
      if hasImage && imageData.Some? {
        match encode(imageData.value) {
          case Ok(data) => items := items + [ImageItem(data)];
          case Err(e) => items := items + [TextItem(ImageErrorPrefix + e)];
        }
      }
      if hasText && textData.Some? {
        var t := textData.value;
        if StringPositions(t.metas) != [] {
          items := items + [TextItem(TableText(t))];
        } else {
          items := items + [TextItem(NoTextData)];
        }
      }
    }

    /** `process()`: takes the prompt from the editor, saves the key
        field as the setting, creates the client with the field's key
        (blank meaning none) and, unless that raises, sends the prepared
        items; either way one table is sent and shown. Returns the key the
        client was created with. */
    method Process(env: Option<string>, clientError: Option<string> -> Option<string>,
                   chat: Request -> Completion, encode: Image -> Result<string, string>)
      returns (clientKey: Option<string>)
      requires Valid()
      modifies this
      ensures Valid()
      ensures imageData == old(imageData) && hasImage == old(hasImage)
      ensures textData == old(textData) && hasText == old(hasText)
      ensures clientKey == EffectiveKey(BlankToNone(old(apiKeyField)), env)
      ensures prompt == old(promptField) && apiKeySetting == old(apiKeyField)
      ensures buttonEnabled == old(buttonEnabled)
      ensures promptField == old(promptField) && apiKeyField == old(apiKeyField)
      ensures var out := RunOutcome(env, clientError, chat, encode);
        outputs == old(outputs) + [out] && display == Join("\n", out.rows)
    {
      prompt := promptField;
      apiKeySetting := apiKeyField;
      var out;
      clientKey, out := Respond(env, clientError, chat, encode);
      outputs := outputs + [out];
      display := Join("\n", out.rows);
    }

    /** The body of `process` after the settings are taken: creates the
        client and, unless that raises, prepares the items and asks the
        chat service. */
    method Respond(env: Option<string>, clientError: Option<string> -> Option<string>,
                   chat: Request -> Completion, encode: Image -> Result<string, string>)
      returns (clientKey: Option<string>, out: Output)
      requires Valid()
      ensures clientKey == EffectiveKey(BlankToNone(apiKeyField), env)
      ensures out == RunOutcome(env, clientError, chat, encode)
    {
      var llm := new LLM(BlankToNone(apiKeyField), env);
      clientKey := llm.apiKey;
      match clientError(clientKey) {
        case Some(e) =>
          var errorMsg := ProcessingErrorPrefix + e;
          out := Output(ErrorColumn, [errorMsg]);
        case None =>
          var items := PrepareMultimodalData(encode);
          var results := llm.GetMultimodalResponse(promptField, items, chat);
          out := Output(ResponseColumn, results);
      }
    }

    /** `set_image_data(data)`: keeps an array and runs at once when a
        table is already present; anything else clears the image. The
        button follows `check_inputs`. */
    method SetImageData(input: ImageInput, env: Option<string>, clientError: Option<string> -> Option<string>,
                        chat: Request -> Completion, encode: Image -> Result<string, string>)
      requires Valid()
      modifies this
      ensures Valid()
      ensures input.ArrayValue? ==> imageData == Some(input.image) && hasImage
      ensures !input.ArrayValue? ==> imageData == None && !hasImage
      ensures textData == old(textData) && hasText == old(hasText)
      ensures buttonEnabled == (hasImage || hasText)
      ensures promptField == old(promptField) && apiKeyField == old(apiKeyField)
      ensures input.ArrayValue? && old(hasText) ==>
        var out := RunOutcome(env, clientError, chat, encode);
        && outputs == old(outputs) + [out] && display == Join("\n", out.rows)
        && prompt == old(promptField) && apiKeySetting == old(apiKeyField)
      ensures !(input.ArrayValue? && old(hasText)) ==>
        outputs == old(outputs) && display == old(display)
        && prompt == old(prompt) && apiKeySetting == old(apiKeySetting)
    {
      if input.ArrayValue? {
        imageData := Some(input.image);
        hasImage := true;
        CheckInputs();
        if hasText {
          var _ := Process(env, clientError, chat, encode);
        }
      } else {
        imageData := None;
        hasImage := false;
        CheckInputs();
      }
    }

    /** `set_text_data(data)`: keeps a table and runs at once when an
        image is already present; anything else clears the table. The
        button follows `check_inputs`. */
    method SetTextData(input: Input, env: Option<string>, clientError: Option<string> -> Option<string>,
                       chat: Request -> Completion, encode: Image -> Result<string, string>)
      requires Valid()
      requires input.TableValue? ==> WellFormed(input.table)
      modifies this
      ensures Valid()
      ensures input.TableValue? ==> textData == Some(input.table) && hasText
      ensures !input.TableValue? ==> textData == None && !hasText
      ensures imageData == old(imageData) && hasImage == old(hasImage)
      ensures buttonEnabled == (hasImage || hasText)
      ensures promptField == old(promptField) && apiKeyField == old(apiKeyField)
      ensures input.TableValue? && old(hasImage) ==>
        var out := RunOutcome(env, clientError, chat, encode);
        && outputs == old(outputs) + [out] && display == Join("\n", out.rows)
        && prompt == old(promptField) && apiKeySetting == old(apiKeyField)
      ensures !(input.TableValue? && old(hasImage)) ==>
        outputs == old(outputs) && display == old(display)
        && prompt == old(prompt) && apiKeySetting == old(apiKeySetting)
    {
      if input.TableValue? {
        textData := Some(input.table);
        hasText := true;
        CheckInputs();
        if hasImage {
          var _ := Process(env, clientError, chat, encode);
        }
      } else {
        textData := None;
        hasText := false;
        CheckInputs();
      }
    }
  }
}

/** The request sent to the chat model: one human message made of a text part
    followed by one inline image part per attached image. The model itself is an
    uninterpreted, possibly failing function of that message. */
module Messages {
  import opened Common

  /** One entry of a message's content list: `{"type": "text", ...}` or
      `{"type": "image_url", ...}`. */
  datatype Part = TextPart(text: string) | ImagePart(url: string)

  type Message = seq<Part>

  /** Whatever the model call raised: a provider error, a timeout, a bad reply. */
  datatype LlmError = LlmError(reason: string)

  /** The chat model (construction and `invoke` together): a reply's content or an error. */
  type Llm = Message -> Result<string, LlmError>

  const DataUrlPrefix: string := "data:image/jpeg;base64,"

  /** The inline URL an image payload is sent as. */
  function DataUrl(payload: string): (url: string)
    ensures DataUrlPrefix <= url && url[|DataUrlPrefix|..] == payload
  {
    DataUrlPrefix + payload
  }

  /** One image part per payload, in order (the loop appending to `message_content`). */
  function ImageParts(images: seq<string>): (parts: seq<Part>)
    ensures |parts| == |images|
    ensures forall i :: 0 <= i < |images| ==> parts[i] == ImagePart(DataUrl(images[i]))
  {
    if |images| == 0 then [] else [ImagePart(DataUrl(images[0]))] + ImageParts(images[1..])
  }

  /** `[{"type": "text", "text": prompt}]` followed by the image parts. */
  function UserMessage(prompt: string, images: seq<string>): (m: Message)
    ensures |m| == 1 + |images|
    ensures m[0] == TextPart(prompt)
  {
    [TextPart(prompt)] + ImageParts(images)
  }

  /** The payloads carried by a message's image parts, in order. */
  function AttachedImages(parts: seq<Part>): seq<string>
  {
    if |parts| == 0 then []
    else
      (match parts[0]
       case ImagePart(url) =>
         if DataUrlPrefix <= url then [url[|DataUrlPrefix|..]] else []
       case TextPart(_) => []) + AttachedImages(parts[1..])
  }

  /** The model receives the prompt and every image, unaltered and in order: reading
      them back from the message gives exactly what was attached. */
  lemma {:induction false} UserMessageRoundTrip(prompt: string, images: seq<string>)
    ensures UserMessage(prompt, images)[0].text == prompt
    ensures AttachedImages(UserMessage(prompt, images)) == images
  {
    var m := UserMessage(prompt, images);
    assert m[1..] == ImageParts(images);
    ImagePartsRoundTrip(images);
  }

  lemma {:induction false} ImagePartsRoundTrip(images: seq<string>)
    ensures AttachedImages(ImageParts(images)) == images
    decreases |images|
  {
    if |images| > 0 {
      var parts := ImageParts(images);
      assert parts[1..] == ImageParts(images[1..]);
      ImagePartsRoundTrip(images[1..]);
    }
  }
}

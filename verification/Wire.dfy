/** The message structures of moqt-core/src/wire. */
module Wire {
  import opened Words
  import opened Codec

  /** An ordered list of byte-string fields (wire/track_namespace.rs). */
  datatype TrackNamespace = TrackNamespace(fields: seq<blob>)

  datatype SubscriptionFilter =
    | NextGroupStart
    | LargestObjectFilter
    | AbsoluteStart(group: u64, object_: u64)
    | AbsoluteRange(group: u64, object_: u64, endGroupDelta: u64)

  /** The parameters the decoder keeps (wire/parameter.rs). */
  datatype MessageParameter =
    | FilterParameter(filter: SubscriptionFilter)
    | LargestObject(group: u64, object_: u64)
    | Forward(state: byte)

  type Parameters = ps: seq<MessageParameter> | |ps| < 0x1_0000_0000_0000_0000

  datatype ReasonPhrase = ReasonPhrase(value: blob)

  datatype PublishNamespaceMessage = PublishNamespaceMessage(
    requestId: u64, requiredRequestIdDelta: u64, trackNamespace: TrackNamespace)

  datatype SubscribeMessage = SubscribeMessage(
    requestId: u64, requiredRequestIdDelta: u64, trackNamespace: TrackNamespace, trackName: blob,
    parameters: Parameters)

  datatype SubscribeOkMessage = SubscribeOkMessage(
    trackAlias: u64, parameters: Parameters, trackPropertiesRaw: blob)

  datatype RequestOkMessage = RequestOkMessage

  datatype RequestErrorMessage = RequestErrorMessage(
    errorCode: u64, retryInterval: u64, reasonPhrase: ReasonPhrase)

  datatype PublishDoneMessage = PublishDoneMessage(
    statusCode: u64, streamCount: u64, reasonPhrase: ReasonPhrase)

  /** stream/request.rs */
  datatype RequestMessage =
    | PublishNamespace(publishNamespace: PublishNamespaceMessage)
    | Subscribe(subscribe: SubscribeMessage)
    | SubscribeOk(subscribeOk: SubscribeOkMessage)
    | RequestOk(requestOk: RequestOkMessage)
    | RequestError(requestError: RequestErrorMessage)
    | PublishDone(publishDone: PublishDoneMessage)

  const MSG_SUBSCRIBE: u64 := 0x03
  const MSG_SUBSCRIBE_OK: u64 := 0x04
  const MSG_REQUEST_ERROR: u64 := 0x05
  const MSG_PUBLISH_NAMESPACE: u64 := 0x06
  const MSG_REQUEST_OK: u64 := 0x07
  const MSG_PUBLISH_DONE: u64 := 0x0b
  const MSG_SETUP: u64 := 0x2f00

  const ERROR_NOT_SUPPORTED: u64 := 0x3
  const ERROR_DOES_NOT_EXIST: u64 := 0x10
}

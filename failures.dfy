/** The errors the bot's steps throw, with the messages they carry. The one
    report a failed job sends to the channel is built from that message. */
module Failures {
  import JsString

  datatype Failure =
    | FileSystem(detail: string)           // mkdir or readdir of the temporary directory threw
    | InstaloaderFailed(detail: string)    // the instaloader process exited with an error
    | NoMp4Produced                        // no usable .mp4 in the temporary directory
    | InvalidDownload                      // the located file is missing or empty
    | TransferShInvalid(link: string)      // transfer.sh answered without a link
    | ZeroX0Invalid(link: string)          // 0x0.st answered without a link
    | FileIoFailed(body: string)           // file.io answered without `link`; body is its JSON text
    | Network(detail: string)              // an HTTP request threw
    | WebhookRejected(status: int, body: string) // the webhook answered with status >= 400

  /** `e.message` of the thrown error. */
  function Message(f: Failure): string {
    match f
    case FileSystem(d) => d
    case InstaloaderFailed(d) => "Falha no Instaloader: " + d
    case NoMp4Produced => "Instaloader não gerou .mp4 (talvez bloqueio/login exigido)."
    case InvalidDownload => "Download não gerou arquivo válido."
    case TransferShInvalid(link) => "Upload no transfer.sh não retornou link válido: " + link
    case ZeroX0Invalid(link) => "Upload no 0x0.st não retornou link válido: " + link
    case FileIoFailed(body) => "Upload no file.io falhou: " + body
    case Network(d) => d
    case WebhookRejected(status, body) =>
      "Webhook Make retornou HTTP " + JsString.IntToDecimal(status) + ": " + body
  }
}

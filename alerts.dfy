/** The outbound notification channel of backend/app/alerts.py. Each call of
    `send_telegram_alert(message)` is recorded as one entry of `sent`, in
    call order; whether the HTTP delivery succeeded is not modelled. */
module Alerts {

  /** U+1F6A8, the alert marker every alert message starts with. */
  const Siren: char := '\U{1F6A8}'

  class AlertLog {
    var sent: seq<string>

    constructor ()
      ensures sent == []
    {
      sent := [];
    }

    /** `send_telegram_alert(message)`. */
    method Send(message: string)
      modifies this
      ensures sent == old(sent) + [message]
    {
      sent := sent + [message];
    }
  }
}

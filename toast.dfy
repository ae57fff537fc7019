/**
 * The options record `showToast` hands to the toast controller: a fixed
 * "Dismiss" button with the cancel role, then the caller's buttons, a
 * 3000 ms duration and the bottom position. Creating and presenting the
 * toast is not modelled.
 */
module Toast {
  import opened Wrappers

  /** A toast button: its label and, when given, its role. */
  datatype ToastButton = ToastButton(text: string, role: Option<string>)

  datatype ToastOptions = ToastOptions(message: string, duration: nat, position: string, buttons: seq<ToastButton>)

  /** The list every toast starts with: one `Dismiss` button with the cancel role. */
  function DefaultButtons(): (buttons: seq<ToastButton>)
    ensures |buttons| == 1 && buttons[0].text == "Dismiss" && buttons[0].role == Some("cancel")
  {
    [ToastButton("Dismiss", Some("cancel"))]
  }

  /**
   * Builds the options for `showToast(message, configButtons)`; the button
   * list starts as [Dismiss] and the caller's buttons, when given, are
   * appended to it in place, in their own order.
   */
  method ShowToastOptions(message: string, configButtons: Option<seq<ToastButton>>) returns (options: ToastOptions)
    ensures options.message == message
    ensures options.duration == 3000 && options.position == "bottom"
    ensures |options.buttons| == 1 + |configButtons.GetOr([])|
    ensures options.buttons[0] == ToastButton("Dismiss", Some("cancel"))
    ensures forall i :: 0 <= i < |configButtons.GetOr([])| ==> options.buttons[i + 1] == configButtons.GetOr([])[i]
  {
    var defaultButtons := DefaultButtons();
    if configButtons.Some? {
      defaultButtons := defaultButtons + configButtons.value;
    }
    options := ToastOptions(message, 3000, "bottom", defaultButtons);
  }
}

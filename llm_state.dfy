/** LLMState: whether inline completion is switched on; it starts switched off. */
module LlmState {

  class LLMState {
    var enabled: bool

    constructor ()
      ensures !enabled
    {
      enabled := false;
    }

    function IsEnabled(): bool
      reads this
    {
      enabled
    }

    method Toggle()
      modifies this
      ensures IsEnabled() == !old(IsEnabled())
    {
      enabled := !enabled;
    }

    method SetEnabled(value: bool)
      modifies this
      ensures IsEnabled() == value
    {
      enabled := value;
    }
  }
}

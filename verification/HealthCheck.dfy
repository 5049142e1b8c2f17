/** One round of the background health checker for one instance. */
module HealthCheck {
  import opened Registry
  import opened Wrappers

  /** The probe result lands in the health flag and nowhere near the breaker: no response (a transport
      error) or a status outside 200..299 is unhealthy. */
  method ProbeOnce(inst: Instance, response: Option<int>) returns (changed: bool)
    modifies inst
    ensures inst.healthy <==> response.Some? && 200 <= response.value <= 299
    ensures inst.View() == old(inst.View()).(healthy := inst.healthy)
    ensures changed <==> inst.healthy != old(inst.healthy)
  {
    var healthy := response.Some? && response.value >= 200 && response.value < 300;
    var wasHealthy := inst.healthy;
    inst.SetHealthy(healthy);
    changed := healthy != wasHealthy;
  }
}

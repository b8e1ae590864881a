/**
 * `DeviceController`: the object whose methods update the shared per-type
 * `devices` record and the `registeredDevices` list in place. Each method is
 * proved against the functions of module Devices; the status text that
 * `updateOutput` would display is returned instead.
 */
module DeviceControl {
  import opened KeywordTable
  import opened Wrappers
  import opened Devices

  class DeviceController {
    var devices: DeviceStates
    var registeredDevices: seq<Registration>

    /** Counters within their clamps, registration ids unique. */
    ghost predicate Valid()
      reads this
    {
      InRange(devices) && UniqueIds(registeredDevices)
    }

    constructor ()
      ensures Valid()
      ensures devices == InitialDevices && registeredDevices == []
    {
      devices := InitialDevices;
      registeredDevices := [];
    }

    /**
     * `registerDevice`: a duplicate id is refused (the page raises an alert,
     * here `added` is false) and nothing changes; otherwise `{id, type}` is
     * appended and the device states are untouched.
     */
    method RegisterDevice(deviceId: string, deviceType: string) returns (added: bool)
      requires Valid()
      modifies this
      ensures Valid()
      ensures added <==> !HasId(old(registeredDevices), deviceId)
      ensures registeredDevices == Registered(old(registeredDevices), deviceId, deviceType)
      ensures added ==> registeredDevices == old(registeredDevices) + [Registration(deviceId, deviceType)]
      ensures !added ==> registeredDevices == old(registeredDevices)
      ensures devices == old(devices)
    {
      var existing := Find(registeredDevices, (r: Registration) => r.id == deviceId);
      if existing.Some? {
        added := false;
        return;
      }
      registeredDevices := registeredDevices + [Registration(deviceId, deviceType)];
      added := true;
    }

    /** `removeDevice`: `registeredDevices.splice(index, 1)`; the device states are untouched. */
    method RemoveDevice(index: int)
      requires Valid()
      modifies this
      ensures Valid()
      ensures registeredDevices == Spliced(old(registeredDevices), index)
      ensures devices == old(devices)
    {
      SplicedKeepsUniqueIds(registeredDevices, index);
      registeredDevices := Spliced(registeredDevices, index);
    }

    /** `controlTV`, updating the shared TV record in place. */
    method ControlTv(action: string) returns (message: string)
      requires Valid()
      modifies this
      ensures Valid()
      ensures (devices.tv, message) == TvStep(old(devices.tv), action)
      ensures devices.ac == old(devices.ac) && devices.washingMachine == old(devices.washingMachine)
      ensures registeredDevices == old(registeredDevices)
    {
      var (tv, m) := TvStep(devices.tv, action);
      devices := devices.(tv := tv);
      message := m;
    }

    /** `controlAC`, updating the shared air-conditioner record in place. */
    method ControlAc(action: string) returns (message: string)
      requires Valid()
      modifies this
      ensures Valid()
      ensures (devices.ac, message) == AcStep(old(devices.ac), action)
      ensures devices.tv == old(devices.tv) && devices.washingMachine == old(devices.washingMachine)
      ensures registeredDevices == old(registeredDevices)
    {
      var (ac, m) := AcStep(devices.ac, action);
      devices := devices.(ac := ac);
      message := m;
    }

    /** `controlWashingMachine`, updating the shared washing-machine record in place. */
    method ControlWashingMachine(action: string) returns (message: string)
      requires Valid()
      modifies this
      ensures Valid()
      ensures (devices.washingMachine, message) == WashingMachineStep(old(devices.washingMachine), action)
      ensures devices.tv == old(devices.tv) && devices.ac == old(devices.ac)
      ensures registeredDevices == old(registeredDevices)
    {
      var (w, m) := WashingMachineStep(devices.washingMachine, action);
      devices := devices.(washingMachine := w);
      message := m;
    }

    /**
     * `controlDevice`: without a registration of type `deviceName` nothing
     * changes and only the "not registered" message is produced; otherwise
     * the handler of that type runs on the one record of that type.
     */
    method ControlDevice(deviceName: string, action: string) returns (message: string)
      requires Valid()
      modifies this
      ensures Valid()
      ensures (devices, message) == ControlStep(old(devices), old(registeredDevices), deviceName, action)
      ensures FindByType(old(registeredDevices), deviceName).None? ==>
        devices == old(devices) && message == "الجهاز " + deviceName + " غير مسجل"
      ensures registeredDevices == old(registeredDevices)
    {
      var registeredDevice := FindByType(registeredDevices, deviceName);
      if registeredDevice.None? {
        message := "الجهاز " + deviceName + " غير مسجل";
        return;
      }
      if deviceName == "tv" {
        message := ControlTv(action);
      } else if deviceName == "ac" {
        message := ControlAc(action);
      } else if deviceName == "washing-machine" {
        message := ControlWashingMachine(action);
      } else {
        message := "";
      }
    }

    /**
     * `processDeviceCommand`: run the action of the first phrase found in the
     * command, or report a command not understood and change nothing. The TV
     * volume is never changed this way.
     */
    method ProcessDeviceCommand(command: string) returns (message: string)
      requires Valid()
      modifies this
      ensures Valid()
      ensures (devices, message) == CommandStep(old(devices), old(registeredDevices), command)
      ensures Route(DeviceCommands, command).None? ==>
        devices == old(devices) && message == "أمر غير مفهوم: " + command
      ensures devices.tv.volume == old(devices.tv.volume)
      ensures registeredDevices == old(registeredDevices)
    {
      var route := FindFirst(DeviceCommands, keywords => AnyKeyword(keywords, command), None);
      match route
      case None =>
        message := "أمر غير مفهوم: " + command;
      case Some((deviceName, action)) =>
        message := ControlDevice(deviceName, action);
    }
  }
}

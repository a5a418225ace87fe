/**
  A declared configuration slot: the section it belongs to, its name inside
  that section, a display label and a default value.  The default value is an
  arbitrary Go value rendered with "%v" wherever it is used, so it is kept
  here as that rendered string.
 */
module ConfigItem {

  class ConfigurationItem {
    var section: string
    var name: string
    var friendlyName: string
    var defaultValue: string

    /** NewConfigurationItem: stores its four arguments. */
    constructor (section: string, name: string, friendlyName: string, defaultValue: string)
      ensures GetSection() == section && GetName() == name
      ensures GetFriendlyName() == friendlyName && GetDefaultValue() == defaultValue
    {
      this.section := section;
      this.name := name;
      this.friendlyName := friendlyName;
      this.defaultValue := defaultValue;
    }

    function GetSection(): string
      reads this
    {
      section
    }

    function GetName(): string
      reads this
    {
      name
    }

    function GetFriendlyName(): string
      reads this
    {
      friendlyName
    }

    function GetDefaultValue(): string
      reads this
    {
      defaultValue
    }

    method SetSection(section: string)
      modifies this
      ensures GetSection() == section
      ensures GetName() == old(GetName()) && GetFriendlyName() == old(GetFriendlyName())
      ensures GetDefaultValue() == old(GetDefaultValue())
    {
      this.section := section;
    }

    method SetName(name: string)
      modifies this
      ensures GetName() == name
      ensures GetSection() == old(GetSection()) && GetFriendlyName() == old(GetFriendlyName())
      ensures GetDefaultValue() == old(GetDefaultValue())
    {
      this.name := name;
    }

    method SetFriendlyName(friendlyName: string)
      modifies this
      ensures GetFriendlyName() == friendlyName
      ensures GetSection() == old(GetSection()) && GetName() == old(GetName())
      ensures GetDefaultValue() == old(GetDefaultValue())
    {
      this.friendlyName := friendlyName;
    }

    method SetDefaultValue(value: string)
      modifies this
      ensures GetDefaultValue() == value
      ensures GetSection() == old(GetSection()) && GetName() == old(GetName())
      ensures GetFriendlyName() == old(GetFriendlyName())
    {
      this.defaultValue := value;
    }
  }
}

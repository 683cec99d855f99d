/** What the pages ask of their host (the router, the theme holder, the
    browser) when an action runs. Performing these is outside the model;
    they are returned as values. */
module Host {

  datatype Effect =
    | Navigate(path: string)
    | ToggleTheme
    | WriteClipboard(text: string)
    | OpenWindow(url: string, target: string)
}
